# Access logic of the SMBW randomizer, modelled and proved

The randomizer decides what a player can reach in several places that are meant to agree: the
Archipelago world evaluates `requires` expressions and computes region reach, the tracker generator
compiles the same data into Lua, a validator holds a third copy, and open-world mode rewrites the
region graph and the item pool in place. This project models those copies with the branches, edge
cases and constants of the code, and proves where they agree, exactly when they do not, and what
each keeps. Five self-contained parts of the repository's tooling are modelled in the same way:
MurmurHash3, the reconstruction of constants from A64 code, the BYML reader, the save comparison,
and the filler adjustment of the item pool.

| files | content |
|---|---|
| `RequiresSyntax`, `RequiresTokens` | expressions, their two readings, and expressions as tokens |
| `PostfixEvaluator`, `DoubleNots`, `RequiresRules` | shunting-yard, stack machine and substitution of `Rules.py`; what repeated `!` do; the list form |
| `TrackerCompiler`, `LeafAgreement`, `MeaningPreservation` | the tracker's tokenizer, parser and emitter; its meaning against `Rules.py`, reference by reference and expression by expression |
| `Reachability`, `TopoOrder`, `AccessLogic` | both forms of region reach, the emission order, both sides end to end |
| `WorldNames`, `OpenWorldLogic`, `OpenWorldAccess`, `OpenWorldGoal`, `OpenWorldRules` | open-world rules of tracker and Archipelago, the goal, and both sides end to end |
| `PyEval`, `FilledInventory`, `Validator` | the validator's own evaluator, the inventory it fills up, and its memoised models |
| `RegionCache` | the generation-stamped cache of the emitted Lua |
| `OpenWorldGraph`, `CreateRegions` | regions, entrances and locations as objects that are rewritten in place |
| `Lists`, `ItemPool`, `FillerItems`, `OpenWorldPool` | the item pool from creation to the filler step |
| `Bits`, `ByteOrder`, `Murmur3`, `Murmur3Vectors` | integers as bits, bytes as numbers, the four hash copies, and their reference digests |
| `ConstantReconstruction`, `Byml`, `SaveDiff` | the other three side parts |

Loops and objects of the source are methods and classes here; each is proved against a function or
relation, and the lemmas are about that. `dafny verify dfyconfig.toml` checks everything.

What the proofs brought out about the code:

- A single reference that neither side refuses means the same to `Rules.py` and to the tracker, for
  every inventory that holds what the player started with and each always-available item once,
  exactly when it reads alike (`LeafAgreesIff`). `Rules.py` clamps OptOne to the pool that was
  generated, the tracker to the item table. `|x:0|` on an ordinary item does not read alike, nor
  `|x:2|` on an always-available one, a category that OptOne clamps below what the tracker asks for,
  and an item that OptOne clamps to another number in the pool than in the table, past what was
  started with (`UnlikeLeaves`). A character taken out of the pool because the player starts with it
  does read alike (`StartedAlikeIff`).
- Expressions of references that read alike mean the same for every inventory exactly when no AND
  follows an OR at the same parenthesis level (`EvaluatorsAgreeIff`). `1 OR 0 AND 0` separates them.
- `Rules.py` raises on an expression exactly when a double `!` comes first (`RulesRaisesIff`).
  Elsewhere a run of an even number of `!` negates the operand below instead of its own; the
  left-to-right value still comes out exactly when such runs cancel (`ReadLeftToRightIff`).
- A list requirement of or-groups alone always passes (`CheckRequireList`).
- Without a region flagged `starting`, Archipelago starts everywhere and the tracker nowhere
  (`SidesAgreeIff`).
- In open-world mode all locations but the goal are open on both sides alike, and the goal in
  Archipelago exactly where it is in the tracker and its gate lets through (`OpenLocationsAlike`).
  The tracker's palace count forces the six Royal Seeds the gate asks for exactly on slots that
  require six palaces (`PalacesForceSeedsIff`).
- A starting-item block without `items` and `item_categories` works on the pool list itself and
  walks the list it removes from, so it starts only every other item (`WholePoolIff`).
- Pool and grant use different defaults for a missing `count` (one and zero), so an inactive world's
  Wonder Seeds are conserved only if the count is written out (`CreatedSeedsConservedIff`).
- Three of the four hash copies mix the length in unmasked; they are MurmurHash3 exactly when bits
  32 to 47 of the length are zero (`UnmaskedAgreesIff`).
- The validator agrees with the tracker on a requirement whenever each reference does, an AND after an
  OR included (`PyMeansTracker`). In open-world mode it evaluates on an inventory filled up with the free
  seeds, which the tracker does not count: that changes nothing as long as only the Starts name them.
- The backward constant walk ORs every movk it meets and ignores them after a movn, and it passes
  over calls: its branch for them is never taken, because a call has no register as operand 0,
  although its comments say otherwise. A value it returns is right on every execution exactly when
  no value put into a lane has a bit the last one lacks and nothing may have changed the register
  since (`ReconstructionSoundIff`). `movz x0, #1; bl f` is reported wrongly (`MovzThenCall`).
- The forward scanner takes a register that is not pending for zero, keeps pending values across
  calls, and drops one at a store. A pending value is right on every execution exactly when each lane
  is determined, and was kept since or is zero (`PendingSoundIff`): right after a copy from the zero
  register (`MovkAfterZero`), wrong after a store (`StoreDropsLane`).
- The pair region holds 377 pairs; a comment beside the constant says 375. The model follows the code.

## Model

| member | source | states |
|---|---|---|
| RequiresSyntax.ReadingsAgreeIff | apworld/smbw_archipelago/Rules.py:15-39 | equal precedence and AND-before-OR give the same value for every assignment exactly when no AND follows an OR at the same level, at any depth |
| RequiresSyntax.ReadingsAgree | scripts/generate_tracker_logic.py:298-310 | under that condition the two readings agree for every assignment |
| PostfixEvaluator.InfixToPostfix | apworld/smbw_archipelago/Rules.py:15-39 | the shunting-yard loop computes the specified postfix string, or raises on the same inputs |
| PostfixEvaluator.EvaluatePostfix | apworld/smbw_archipelago/Rules.py:42-66 | the stack machine's loop computes the specified result, including its failures |
| PostfixEvaluator.RulesComputesMachine | apworld/smbw_archipelago/Rules.py:15-66 | on every expression, with any number of `!`, both loops together compute a compositional evaluator in which `!!` acts on the operand below |
| PostfixEvaluator.RulesRaisesIff | apworld/smbw_archipelago/Rules.py:15-66 | evaluation raises exactly on expressions that begin, at the start or after opening parentheses, with a double `!` |
| DoubleNots.ReadLeftToRightIff | apworld/smbw_archipelago/Rules.py:15-66 | the evaluator gives the left-to-right value for all leaf values exactly when no double `!` comes first and the runs of even length cancel, by a condition on the shape alone |
| PostfixEvaluator.DoubleNotMisread | apworld/smbw_archipelago/Rules.py:58-60 | `1&!!1` is one that is misread |
| RequiresRules.Substitute | apworld/smbw_archipelago/Rules.py:101-160 | the substitution loop turns each reference into 1 exactly when its threshold is met and into 0 otherwise, whatever the duplicates, the order and the overlap of the two tests; it raises exactly on unreadable counts |
| RequiresRules.RelativeThresholdReachable | apworld/smbw_archipelago/Rules.py:121-152 | thresholds from `all`, `half` and percentages never exceed the pool count |
| RequiresRules.ThresholdMeaning | apworld/smbw_archipelago/Rules.py:121-152 | what each amount asks for: all, half rounded down, a percentage rounded up and kept between 0 and 100, a number |
| RequiresRules.CheckRequireString | apworld/smbw_archipelago/Rules.py:69-166 | the whole check, from tokens to the answer or the exception, is substitution followed by the two loops |
| RequiresRules.CheckStringComputes | apworld/smbw_archipelago/Rules.py:69-166 | on every expression with usable references, whatever its runs of `!`, the check is the evaluator on what is held |
| RequiresRules.CheckStringMeaning | apworld/smbw_archipelago/Rules.py:69-166 | where the evaluator reads left to right, the check does not raise and gives that value of what is held |
| RequiresRules.HoldsMonotone | apworld/smbw_archipelago/Rules.py:101-160 | a reference that is met stays met when the inventory grows |
| RequiresRules.CheckStringMonotone | apworld/smbw_archipelago/Rules.py:69-166 | a `!`-free requirement never goes from true to false when the inventory grows |
| RequiresRules.CheckRequireList | apworld/smbw_archipelago/Rules.py:168-206 | the loop with its break answers whether some or-group is fully held or every plain item is |
| RequiresRules.ListForms | apworld/smbw_archipelago/Rules.py:168-206 | or-groups alone always pass, plain items are all needed, and one or-group fully held is enough |
| RequiresRules.ListMonotone | apworld/smbw_archipelago/Rules.py:168-206 | the list form is monotone in the inventory |
| TrackerCompiler.Compiler.TokenizeAll | scripts/generate_tracker_logic.py:270-293 | the tokenizer loop returns the specified tokens and records in `used_codes` exactly the codes of its references |
| TrackerCompiler.CharTokens | scripts/generate_tracker_logic.py:270-293 | parentheses are tokens, white space is skipped, any other character is refused |
| TrackerCompiler.Compiler.ParseOrExpr | scripts/generate_tracker_logic.py:298-303 | the method that advances the position computes the specified parse and stops where it stops |
| TrackerCompiler.Compiler.ParseAndExpr | scripts/generate_tracker_logic.py:305-310 | the same for AND |
| TrackerCompiler.Compiler.ParseAtomExpr | scripts/generate_tracker_logic.py:312-324 | the same for atoms and parentheses, including the syntax errors |
| TrackerCompiler.Compiler.CompileExpr | scripts/generate_tracker_logic.py:256-268 | compiling is tokenizing, parsing with nothing left over, and emitting |
| TrackerCompiler.CompiledCodesRegistered | scripts/generate_tracker_logic.py:202-253 | every item code that the compiled rule asks for is in `used_codes` |
| TrackerCompiler.SameCodesSameValue | scripts/generate_tracker_logic.py:191-253 | those codes are all that the rule reads: trackers that count them alike give it the same value |
| TrackerCompiler.ParseChain | scripts/generate_tracker_logic.py:298-324 | the tokens of every expression parse, all of them, to the tree in which AND binds tighter |
| TrackerCompiler.RoundTrip | scripts/generate_tracker_logic.py:298-324 | printing a tree with its compound children in parentheses and parsing it gives the tree back, for all trees whose operators have at least two children |
| TrackerCompiler.EmitMeaning | scripts/generate_tracker_logic.py:326-342 | the simplifying emitter keeps the value of every tree without an empty OR |
| TrackerCompiler.CompiledMeaning | scripts/generate_tracker_logic.py:256-342 | the compiled rule of an expression has the value of the AND-before-OR reading |
| LeafAgreement.LeafAgreesIff | scripts/generate_tracker_logic.py:202-253 | for sound item tables, any generated pool and any starting items, a reference neither side refuses means the same for every inventory that holds the starting items and each always-available item once, and every tracker that counts it, exactly when it reads alike; all amounts, OptOne with its two clamps, always-available items, categories and Royal Seeds |
| LeafAgreement.LeafSeparates | scripts/generate_tracker_logic.py:202-253 | a reference that does not is told apart by an inventory |
| LeafAgreement.UnlikeLeaves | scripts/generate_tracker_logic.py:220-247 | four kinds of references that do not read alike |
| LeafAgreement.StartedAlikeIff | apworld/smbw_archipelago/hooks/Rules.py:19-54 | where the copies of an item are split between the pool and what the player starts with, OptOne reads alike exactly if all are in one of them or no more is asked for than one of them has; asked for once, it always does |
| LeafAgreement.CategoryMeaning | scripts/generate_tracker_logic.py:217-236 | a compiled category, always-available members and Royal Seeds included, tests the total held |
| MeaningPreservation.MeaningPreserved | scripts/generate_tracker_logic.py:202-342 | without an AND after an OR at one level, the compiled rule of references that read alike equals the answer of the `Rules.py` check, for every pool and every inventory that holds the starting items and each always-available item once |
| MeaningPreservation.BothReadings | scripts/generate_tracker_logic.py:202-342 | with an AND after an OR too, neither side raises, and each computes its own reading of the same leaf values |
| MeaningPreservation.EvaluatorsAgreeIff | scripts/generate_tracker_logic.py:256-324 | no item table, no pool and no inventory separates the two evaluators on expressions of a shape whose references read alike exactly when no AND follows an OR at one level |
| MeaningPreservation.UnlikeLeafSeparates | scripts/generate_tracker_logic.py:256-342 | and one reference that does not read alike is already an expression they read differently |
| MeaningPreservation.OrThenAndSeparates | apworld/smbw_archipelago/Rules.py:15-66 | `1 OR 0 AND 0` is false for `Rules.py` and true for the tracker |
| Reachability.ReachedIsLeastFixpoint | apworld/smbw_archipelago/Rules.py:220-231 | reach from Menu through open entrances is closed, and least among the closed sets |
| Reachability.TrackerMatchesFixpoint | scripts/generate_tracker_logic.py:417-437 | on every acyclic table with a starting region, the region function is true exactly when the region is reached and its own requirement holds |
| Reachability.SidesAgreeIff | apworld/smbw_archipelago/Regions.py:11-20 | the two forms agree on all regions exactly when some region is flagged starting or no requirement holds |
| Reachability.LocationAccessMatches | scripts/generate_tracker_logic.py:462-470 | location access is the same on both sides |
| Reachability.LocationAccessMonotone | apworld/smbw_archipelago/Rules.py:220-258 | opening more requirements loses no location |
| AccessLogic.EmptyAsksNothing | scripts/generate_tracker_logic.py:256-258 | a missing, empty or empty-list requirement compiles to a rule that always holds, and the `Rules.py` check passes it |
| AccessLogic.LocationsAlike | apworld/smbw_archipelago/Rules.py:208-258 | end to end: for every item table, generated pool, inventory, acyclic region table and requirements both sides read alike, the empty ones among them, the tracker's location rule is true exactly when Archipelago reaches the location |
| AccessLogic.AccessMonotone | apworld/smbw_archipelago/Rules.py:208-258 | a growing inventory loses no region and no location, for `!`-free string and for list requirements |
| TopoOrder.TopologicalOrder | scripts/generate_tracker_logic.py:352-370 | the depth-first visit ends on every graph, lists each region exactly once, and puts every parent first exactly when the graph is acyclic |
| TopoOrder.Sorter.Visit | scripts/generate_tracker_logic.py:360-366 | one visit adds its region and only grows the order; it keeps parents first whatever acyclic rank the caller can give |
| TopoOrder.OrderIsRank | scripts/generate_tracker_logic.py:352-370 | an order with parents first is itself a proof that the graph is acyclic |
| OpenWorldLogic.StandardRule | scripts/generate_tracker_logic.py:601-617 | with open-world off, the emitted region functions are the standard ones |
| OpenWorldLogic.WorldMustBeOpen | scripts/generate_tracker_logic.py:439-456 | a region of a world is only open when that world is active and unlocked |
| OpenWorldLogic.OpenTrackerMatchesFixpoint | scripts/generate_tracker_logic.py:439-456 | the open-world bodies are true exactly on the regions reached over the rewritten edges whose own requirement holds |
| PyEval.PyLeafAgreesIff | scripts/_validate_tracker_logic.py:46-80 | the validator and the tracker agree on a reference, for every inventory, exactly under the stated condition on its number |
| PyEval.PyClamps | scripts/_validate_tracker_logic.py:46-80 | OptOne clamps an item to the item table and a category not at all; the Royal Seeds need no entry among the categories |
| PyEval.PyMeansTracker | scripts/_validate_tracker_logic.py:41-90 | on requirements of such references, with an AND after an OR or without, the validator's value is the compiled rule's |
| PyEval.PyMetAlike | scripts/_validate_tracker_logic.py:41-90 | and where `Rules.py` reads them alike too, all three agree |
| FilledInventory.FilledMet | scripts/_validate_tracker_logic.py:164-166 | filling the inventory up changes no requirement that names no free seed |
| FilledInventory.SeedTellsApart | scripts/_validate_tracker_logic.py:164-166 | one that does, the validator always finds met, and a tracker without the seed does not |
| FilledInventory.StartMeans | scripts/generate_tracker_logic.py:409-411 | what the second compiler makes of a Start's requirement is what the validator finds on the inventory filled up |
| Validator.Standard.FullOf | scripts/_validate_tracker_logic.py:100-112 | for any evaluator, the recursion that fills its memo returns the standard region value and leaves only right entries |
| Validator.PyLocAccess | scripts/_validate_tracker_logic.py:114-119 | with its own evaluator the validator answers for a location as the emitted rule, and where `Rules.py` reads the requirements alike as Archipelago |
| Validator.OpenWorld.FullOf | scripts/_validate_tracker_logic.py:140-159 | for any evaluator, the open-world recursion that fills its memo returns what it would without, and leaves only right entries |
| Validator.OpenReachIsFull | scripts/_validate_tracker_logic.py:140-159 | where the evaluator finds the compiled requirements, that is the tracker's region value |
| Validator.PyOpenAccess | scripts/_validate_tracker_logic.py:161-187 | in every branch, castle and goal and opening course included, the validator's answer on the inventory filled up is that of the emitted location rule on the counts of the inventory itself |
| OpenWorldAccess.NeutralWeaker | apworld/smbw_archipelago/hooks/World.py:125-157 | dropping the Start and Bowser requirements, as Archipelago does, opens no less |
| OpenWorldRules.OpenRegionsAlikeIff | apworld/smbw_archipelago/hooks/World.py:125-157 | with each side's own evaluator, tracker and Archipelago agree on all open-world regions exactly when every Start requirement the tracker keeps is met where its world is active and unlocked |
| OpenWorldRules.FreeStartsMet | scripts/generate_tracker_logic.py:395-411 | compiled with the free seeds taken for always available, Starts that ask for nothing else are met whatever the tracker counts |
| OpenWorldAccess.ResolvedPalacesInRange | apworld/smbw_archipelago/open_world.py:277-284 | the resolved count is between one and the number of active worlds: the option where it is in that range, and all for zero and less or for more |
| OpenWorldAccess.AllPalacesIff | apworld/smbw_archipelago/open_world.py:410-437 | with such an option the gate of the goal is open exactly with all six Royal Seeds and every active palace in reach |
| OpenWorldAccess.BowserGateImpliesPalaces | apworld/smbw_archipelago/open_world.py:410-437 | the gate of the final course implies the tracker's palace count |
| OpenWorldGoal.PalacesForceSeedsIff | scripts/generate_tracker_logic.py:572-581 | on slots as the randomizer fills them in, the palace count forces all six Royal Seeds for every inventory exactly when six palaces are required |
| OpenWorldGoal.GoalSeparates | apworld/smbw_archipelago/open_world.py:410-437 | below six some inventory opens the goal in the tracker and not in Archipelago, wherever the palaces are |
| OpenWorldRules.OpenRegionsMonotone | apworld/smbw_archipelago/open_world.py:300-337 | a growing inventory loses no region of the restructured graph |
| OpenWorldRules.BowserGateMonotone | apworld/smbw_archipelago/open_world.py:400-437 | a growing inventory never closes the gate: palaces are locations of the restructured graph, and none is lost |
| OpenWorldRules.OpenPlacesMonotone | apworld/smbw_archipelago/open_world.py:340-368 | nor does it lose any location, the goal with its gate included |
| OpenWorldRules.OpenLocationsAlike | scripts/generate_tracker_logic.py:470-488 | end to end in open-world mode, with each side's own evaluator: a location is open in Archipelago exactly when it is in the tracker and, for the goal, the gate lets through |
| RegionCache.CallCoherent | scripts/generate_tracker_logic.py:601-617 | a region call returns the uncached value and leaves the cache coherent, entries of nested calls included |
| RegionCache.PlaceCoherent | scripts/generate_tracker_logic.py:619-632 | the same for `smbw_loc` |
| RegionCache.RunCoherent | scripts/generate_tracker_logic.py:517-519 | over every interleaving of region queries, location queries and changes that bump GEN, the cached answers are the uncached ones |
| RegionCache.StaleWithoutBump | scripts/generate_tracker_logic.py:517-519 | a change that leaves GEN alone is answered with the old value |
| RegionCache.Script.Region | scripts/generate_tracker_logic.py:601-617 | the emitted function on the mutable cache: its answer is the uncached value and the cache stays coherent |
| RegionCache.Script.AnyOfCalls | scripts/generate_tracker_logic.py:417-437 | the argument calls of ANY, all of them made from left to right, thread the cache as specified |
| RegionCache.Script.Location | scripts/generate_tracker_logic.py:619-632 | a location's answer is its rule recomputed from scratch, in the mode of the slot |
| RegionCache.Script.OnChange | scripts/generate_tracker_logic.py:517-519 | a change with its bump keeps the cache coherent without clearing it |
| CreateRegions.Create | apworld/smbw_archipelago/Regions.py:24-67 | the loops build regions whose exits and entrances mirror each other, whose edges are exactly those of the region table and named for the regions they join, and whose locations are exactly the enabled ones of the location table |
| OpenWorldGraph.DisconnectExit | apworld/smbw_archipelago/open_world.py:291-297 | removes the exit on both ends, keeps the mirror, touches no other exit |
| OpenWorldGraph.SeverForeignExits | apworld/smbw_archipelago/open_world.py:318-325 | walking a copy and removing from the live list leaves exactly the intra-world exits, in order |
| OpenWorldGraph.SeverAll | apworld/smbw_archipelago/open_world.py:315-325 | severs every region but Menu and Manual and keeps the mirror |
| OpenWorldGraph.RebuildManual | apworld/smbw_archipelago/open_world.py:327-337 | Manual leads to the active Start regions in order and to World Bowser, nowhere else |
| OpenWorldGraph.RestructureRegions | apworld/smbw_archipelago/open_world.py:300-337 | the rewrite keeps the mirror and gives every region exactly its stated exits |
| OpenWorldGraph.StripInactiveLocations | apworld/smbw_archipelago/open_world.py:340-368 | each region keeps exactly the locations that survive, in order |
| OpenWorldGraph.StrippedLists | apworld/smbw_archipelago/open_world.py:340-368 | which locations these are, by the region's name: of the castle just the `BC:` courses, nothing of a hub or an inactive world, everything of an active world |
| OpenWorldGraph.OpenIsLeft | apworld/smbw_archipelago/open_world.py:340-368 | every location the tracker's rule can open is among them, the goal included |
| OpenWorldGraph.UngateOpeningCourse | apworld/smbw_archipelago/open_world.py:177-198 | the opening locations move to Manual with their parent, the others stay |
| OpenWorldGraph.MovedParts | apworld/smbw_archipelago/open_world.py:177-198 | moved and unmoved locations are the old ones, none lost or doubled |
| OpenWorldGraph.EdgesExactly | apworld/smbw_archipelago/open_world.py:300-337 | the edges afterwards are exactly Menu's own, Manual to active Starts and Bowser, and the old intra-world edges |
| OpenWorldGraph.OnlyActiveReached | apworld/smbw_archipelago/open_world.py:300-337 | every region reached from Menu is Menu, Manual, World Bowser or in an active world |
| OpenWorldGraph.SurvivorsReached | apworld/smbw_archipelago/open_world.py:340-368 | if each active world is connected from its Start and regions are classified, no surviving location is out of reach |
| OpenWorldGraph.RewrittenIsOpenEdges | apworld/smbw_archipelago/open_world.py:300-337 | the rewritten heap graph of a table has the edges that the open-world rules are proved about |
| ItemPool.BuildPool | apworld/smbw_archipelago/__init__.py:240-271 | every entry is made as often as its count says, one by default, none if disabled, and nothing else is; the traps are the trap entries |
| ItemPool.Generation.MoveLive | apworld/smbw_archipelago/__init__.py:309-312 | walking the list that is removed from moves half of it, rounded up, and loses nothing |
| ItemPool.Generation.StartBlock | apworld/smbw_archipelago/__init__.py:284-312 | what one block may take, in every case of its keys, and that pool and taken items make up the old pool |
| ItemPool.Generation.StartingItems | apworld/smbw_archipelago/__init__.py:273-314 | over all blocks pool and started items make up the old pool, the started ones are precollected, and `start_inventory` counts them |
| ItemPool.OneStarter | apworld/smbw_archipelago/__init__.py:290-312 | a block that asks for one item of its kind starts exactly one matching item, if there is any |
| ItemPool.PinnedStarters | apworld/smbw_archipelago/__init__.py:300-304 | with pinned starters a Character block starts exactly the pinned characters of the pool, whatever number it asks for |
| ItemPool.WaitsForPrevious | apworld/smbw_archipelago/__init__.py:284-288 | a block that waits for an earlier item takes nothing until one was started |
| ItemPool.NamedStarters | apworld/smbw_archipelago/__init__.py:290-312 | a block by names starts every copy of those names and nothing else |
| ItemPool.WholePoolIff | apworld/smbw_archipelago/__init__.py:290-312 | a block without restrictions empties the pool only if that held at most one item |
| FillerItems.Adjuster.AppendExtras | apworld/smbw_archipelago/__init__.py:492-506 | appends the floored share of traps, each a trap name, and then fillers |
| FillerItems.TrapShare | apworld/smbw_archipelago/__init__.py:492-499 | the traps are the percentage of the extras, rounded down, none without a trap name |
| FillerItems.Adjuster.RemoveSurplus | apworld/smbw_archipelago/__init__.py:507-526 | removes fillers before traps before useful items and leaves the multiset of the others |
| FillerItems.SurplusTallies | apworld/smbw_archipelago/__init__.py:507-526 | so what goes of each kind is exactly what the kinds before it could not give |
| FillerItems.Adjuster.AdjustFillerItems | apworld/smbw_archipelago/__init__.py:489-528 | the adjusted pool in all three cases, and its length |
| FillerItems.SizeIff | apworld/smbw_archipelago/__init__.py:489-528 | the pool ends as long as the locations or the items that must stay exactly when the percentage asks for no negative number of traps and for no more than fit |
| FillerItems.SizeWithinOption | apworld/smbw_archipelago/Options.py:9-11 | with any percentage the option allows, the pool is as long as there are locations, or as the items that must stay if those are more |
| OpenWorldPool.KeptNames | apworld/smbw_archipelago/open_world.py:371-394 | Wonder Seeds and Unlocks are kept exactly for active worlds; Royal Seeds and the castle unlock always |
| OpenWorldPool.FreeSeedsLeave | apworld/smbw_archipelago/open_world.py:66-69 | after the hook no Petal Isles or Special World Wonder Seed is in the pool, whatever was in it and whichever worlds are active |
| OpenWorldPool.OrdinaryStays | apworld/smbw_archipelago/open_world.py:371-394 | every name that is no Wonder Seed and no Unlock keeps its counts |
| OpenWorldPool.PrecollectPetalWonderSeeds | apworld/smbw_archipelago/open_world.py:222-240 | grants as many as the table counts, none without a count |
| OpenWorldPool.PrecollectInactiveWonderSeeds | apworld/smbw_archipelago/open_world.py:243-266 | grants the counted Wonder Seeds of exactly the inactive worlds |
| OpenWorldPool.PrecollectStartWorldUnlock | apworld/smbw_archipelago/open_world.py:201-214 | moves one Unlock of the start world, if the pool has it, and nothing else |
| OpenWorldPool.BeforeCreateItemsFiller | apworld/smbw_archipelago/hooks/World.py:66-91 | how the hook changes pool and inventory counts of every name |
| OpenWorldPool.WonderSeedsConservedIff | apworld/smbw_archipelago/open_world.py:222-266 | a Wonder Seed count is conserved exactly for active worlds, and otherwise when the pool held as many as are granted |
| OpenWorldPool.RoyalSeedsAndCastleStay | apworld/smbw_archipelago/open_world.py:377-380 | Royal Seeds and the castle unlock stay where they were |
| OpenWorldPool.OneUnlockPrecollected | apworld/smbw_archipelago/hooks/World.py:81-91 | exactly the start world's Unlock is precollected, other active ones stay in the pool, inactive ones are gone |
| OpenWorldPool.CreatedSeedsConservedIff | apworld/smbw_archipelago/__init__.py:240-320 | over pool creation, starting items and the hook, an inactive world's Wonder Seeds are conserved exactly when the count is written out and none was a starting item, or it is not and none is in the pool; of a disabled entry, when it has no count to grant |
| ByteOrder.DecodeEncoded | scripts/romfs/byml_parse.py:35-41 | reading a number of any width in either byte order undoes writing it |
| ByteOrder.EncodeDecoded | scripts/romfs/byml_parse.py:35-41 | and the other way round |
| Murmur3.BadgeHash | scripts/brute_badge_field_hashes.py:50-89 | the loop over blocks and the descending tail compute MurmurHash3 with the length unmasked |
| Murmur3.CourseHash | scripts/ghidra/dump_course_name_hashes.py:67-122 | byte assembly with `\|` and the switched tail compute MurmurHash3 |
| Murmur3.SeedFieldHash | scripts/ghidra/brute_seed_field_hashes.py:135-172 | the loop over offsets computes the same as the first copy |
| Murmur3.LookupHash | scripts/romfs/hash_lookup.py:24-54 | so does the copy with a sliced tail, for the seed as it is given |
| Murmur3Vectors.KnownDigests | scripts/brute_badge_field_hashes.py:92-105 | the four reference digests of the self-test, with the length masked or not |
| Murmur3.MulInverse | scripts/brute_badge_field_hashes.py:60-87 | the four multipliers have the stated inverses modulo 2**32 |
| Murmur3.AbsorbInjective | scripts/brute_badge_field_hashes.py:59-65 | the state before a block and the block each decide the state after it |
| Murmur3.FinishTells | scripts/brute_badge_field_hashes.py:83-89 | the finalizer tells two states apart exactly by the low word after its first xor-shift |
| Murmur3.NoCollisionInBlock | scripts/brute_badge_field_hashes.py:50-89 | inputs of equal length, however long, that differ only inside one aligned block never collide, in any copy |
| Murmur3.NoCollisionInTail | scripts/brute_badge_field_hashes.py:67-83 | nor do inputs that differ only in the tail |
| Murmur3.UnmaskedAgreesIff | scripts/ghidra/dump_course_name_hashes.py:116 | masked and unmasked length give the same hash exactly when bits 32 to 47 of the length are zero |
| ConstantReconstruction.ReconstructRegAt | scripts/ghidra/walk_hash_writer_xrefs.py:183-279 | the backward loop computes the specified walk, with its limit, its pending value and its refusals |
| ConstantReconstruction.BackReports | scripts/ghidra/walk_hash_writer_xrefs.py:201-279 | it finds a value exactly when the register's chain of writes begins within reach, and reports the disjunction of what was written |
| ConstantReconstruction.WalkReach | scripts/ghidra/walk_hash_writer_xrefs.py:183-279 | that reach is twenty instructions before the call site |
| ConstantReconstruction.AlwaysHoldsIff | scripts/ghidra/walk_hash_writer_xrefs.py:183-279 | a value is what a register holds on every execution exactly when it was put there lane by lane, through any chain of copies, the zero register included, and nothing may have changed it since |
| ConstantReconstruction.MachineHoldsPut | scripts/ghidra/walk_hash_writer_xrefs.py:183-279 | on every execution a lane that is determined holds what was put there last |
| ConstantReconstruction.MachineHoldsActual | scripts/ghidra/walk_hash_writer_xrefs.py:183-279 | for a register whose chain the walk follows, that is the last value of the chain |
| ConstantReconstruction.ReconstructionSoundIff | scripts/ghidra/walk_hash_writer_xrefs.py:183-279 | a returned value is what the register holds on every execution exactly when no value put into a lane has a bit the last one lacks (after a movn, when the movk change nothing) and no call or other instruction may have changed, since a lane was put, the register it is followed in |
| ConstantReconstruction.DistinctZeroLanesFaithful | scripts/ghidra/walk_hash_writer_xrefs.py:245-256 | distinct movk lanes that are zero in the base are such a case |
| ConstantReconstruction.CallsPassedOver | scripts/ghidra/walk_hash_writer_xrefs.py:271-273 | a call is passed over, its branch is never taken |
| ConstantReconstruction.CallBreaksReport | scripts/ghidra/walk_hash_writer_xrefs.py:271-278 | a value found before a call is reported for a caller-saved register and is wrong on some execution |
| ConstantReconstruction.MovzThenCall | scripts/ghidra/walk_hash_writer_xrefs.py:271-278 | `movz x0, #1; bl f` is such a window, and its chain is faithful |
| ConstantReconstruction.ScanFunction | scripts/ghidra/find_hash_immediate_loads.py:133-219 | the forward loop computes the specified pending map and records exactly the places that complete a target |
| ConstantReconstruction.KnownLaneHolds | scripts/ghidra/find_hash_immediate_loads.py:170-215 | a lane that is determined and that the scanner has kept is, in the pending value, the lane of the register on every execution |
| ConstantReconstruction.PendingSoundIff | scripts/ghidra/find_hash_immediate_loads.py:170-215 | a pending value is the register's on every execution exactly when each lane is determined and was kept or is zero |
| ConstantReconstruction.MovkAfterZero | scripts/ghidra/find_hash_immediate_loads.py:190-201 | after a copy from the zero register and a movk the pending value is right |
| ConstantReconstruction.StoreDropsLane | scripts/ghidra/find_hash_immediate_loads.py:212-213 | after a store between movz and movk it is right only if the movz put zero |
| ConstantReconstruction.WalkMatchesScanIff | scripts/ghidra/walk_hash_writer_xrefs.py:183-279 | where the walk finds a value the scanner holds one, and they are equal exactly when the chain is faithful |
| ConstantReconstruction.OrIsOr | scripts/ghidra/walk_hash_writer_xrefs.py:220-223 | `\|` lane by lane is `\|` on the integers |
| ConstantReconstruction.LowIsMask | scripts/ghidra/walk_hash_writer_xrefs.py:219-221 | the low two lanes are the low 32 bits |
| ConstantReconstruction.PlaceIsShift | scripts/ghidra/walk_hash_writer_xrefs.py:219-221 | moving lanes is shifting in 64 bits |
| Byml.ReadStringTable | scripts/romfs/byml_parse.py:43-52 | the loop reads the specified strings, or raises |
| Byml.TableIff | scripts/romfs/byml_parse.py:43-52 | a table is read as just the strings that are laid out there |
| Byml.OpenIff | scripts/romfs/byml_parse.py:17-30 | the constructor accepts exactly the files of the stated layout: `BY` and big-endian, or `YB` and little-endian |
| Byml.EmptyDictReads | scripts/romfs/byml_parse.py:17-99 | the twenty bytes of a little-endian file with an empty dict are read as that |
| Byml.ReadDict | scripts/romfs/byml_parse.py:87-95 | the loop that fills a dict computes the specified node, or raises |
| Byml.PutFinds | scripts/romfs/byml_parse.py:87-95 | an entry of the dict sets its key, leaves every other, and lengthens the dict only by a new key |
| Byml.NodeReads | scripts/romfs/byml_parse.py:81-99 | a laid-out container is read as what it is |
| Byml.ParseIff | scripts/romfs/byml_parse.py:54-99 | a value is returned exactly when the bytes are the layout of a tree that loads as it, within the allowed nesting |
| Byml.DocumentRoundTrip | scripts/romfs/byml_parse.py:16-99 | from a file laid out for a tree without repeated keys, opening and parsing give that tree |
| Byml.CircularRaises | scripts/romfs/byml_parse.py:81-95 | arrays and dicts that hold each other in a circle of any length, through any cells, raise, whatever nesting is allowed |
| SaveDiff.IterPairRegion | scripts/savediff.py:131-140 | yields every whole pair before the end of the region, in order |
| SaveDiff.DiffPairs | scripts/savediff.py:146-159 | reports exactly the pairs of both saves whose key or value differs, once each and in order |
| SaveDiff.ChangeSays | scripts/savediff.py:146-159 | a reported pair has the key and value that were there, the value that is there now, and says whether the key is another one |
| SaveDiff.DiffOutsidePairs | scripts/savediff.py:169-206 | for equal lengths the runs are sorted, apart, nonempty, maximal, with the bytes of both saves, and cover exactly the differing unmasked bytes outside the pair region |
| SaveDiff.RunSays | scripts/savediff.py:169-206 | a reported run has as many bytes of each save, at least one, and they differ throughout |
| SaveDiff.OverlayRebuildsIff | scripts/savediff.py:146-206 | laying both reports over the first save gives the second, and what they say was there before over the second gives the first, exactly when each changed byte is one they have a place for |
| SaveDiff.WholeRegionRebuildsIff | scripts/savediff.py:131-206 | for saves with the whole pair region and no mask: exactly when no key changed |

## Left out

- The text of `requires`: both evaluators start from token sequences. The regular expressions that find `|...|`, trim white space and replace AND and OR, and JSON reading, are not modelled; `str.isnumeric` and `str.isdigit` mean ASCII digits.
- A reference that occurs inside the text of another reference: substitution works on tokens here and on text there.
- Percentages are real numbers, not floats.
- Exceptions have no class or message; warnings and log output are dropped.
- Hooks other than OptOne (the clamp) and the open-world parts of `hooks/World.py` that the table cites; functions called from `{...}` in `requires` other than OptOne.
- The Archipelago library is taken as reach from Menu by least fixpoint and location access as rule and reached parent; its caches and sweep order are not modelled.
- CreateRegions.Create: looking entrances up by connection name is left out, and an entrance is made and connected in one step; `is_location_enabled` is a flag of the row.
- Random choice and shuffling are arbitrary choices and permutations.
- An item is its name; two items of a name are not told apart, as the library's equality does not.
- Lua text: the meaning of the emitted functions is modelled, not `write_lua`'s lines; `ProviderCountForCode` is a count for each code.
- The validator's comparison runs and its random inventories.
- OpenWorldRules.OpenLocationsAlike: slots of older seeds without the castle unlock are outside the statement; `OpenRegionsAlikeIff` says what becomes of a Start requirement that is not met.
- RequiresRules.CheckStringComputes: a reference to a category without members and a negative count stays in the text; what the evaluator makes of that text is left out.
- Murmur3.LookupHash: seeds are nonnegative; the other copies mask theirs, and a negative one is left out there too.
- Murmur3.BadgeHash: text keys are bytes already; encoding is left out.
- ConstantReconstruction.ReconstructRegAt: an instruction is what the disassembler's accessors return, with the shift as a lane number; the reasons of a refusal and the scan of the listing around the window are left out.
- ConstantReconstruction.ReconstructionSoundIff: executions are straight-line; a move into the zero register is outside the statement.
- Byml.ParseIff: text stays bytes (no UTF-8 check), floats stay bit patterns, the version is not kept, and the interpreter's recursion limit is a number of nested containers.
- SaveDiff.DiffPairs: `classify`, header checks and printing are left out.
- `inject_access_rules`, `patch_imports`, `write_item_mapping` and other file rewriting, the `_setup` and launcher code, `switch-mod`, and the remaining Ghidra scripts: file system, processes and user interface.
- `DataValidation.py`, `Meta.py`, `Options.py`, `Data.py`, `Game.py`, slot data and Universal Tracker passthrough: table checks and data copying that would add only easy members.
