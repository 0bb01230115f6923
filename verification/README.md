# Cue backend: what ends up in the cart, and what is ordered

Cue turns a recipe chat, or a scan of NFC stickers, into a Swiggy Instamart cart and a cash order.
This project models the parts of the backend that decide what is in that cart and what is bought,
and proves what they keep. Swiggy is an outside party: it may accept a call, refuse it, silently
drop lines of it, write a cart of its own and ask for a review, or fail before or after the call
took effect. Nothing is assumed of it beyond what the code relies on.

`dafny verify dfyconfig.toml` checks everything.

| file | what it holds |
|---|---|
| `Collections.dfy` | options, filtering, first appearances, Python dictionaries, weighted sums |
| `CartMerge.dfy` | the read-merge-write union and its laws |
| `CartOps.dfy`, `CartService.dfy` | the five cart operations: as programs of Swiggy calls, and as the methods that run them |
| `CartGuarantees.dfy`, `CartAnswers.dfy`, `CartEndings.dfy` | what the operations promise whatever Swiggy answers, exactly when a review makes an answer worth less, and exactly how each ends |
| `CartLocks.dfy`, `CartInterleaving.dfy` | the per-user lock table and all interleavings of tasks under it |
| `Checkout.dfy`, `CheckoutService.dfy` | `place_order`: interleaved callers, and the method itself |
| `Names.dfy` | the rule for "the same item" |
| `Checklist.dfy`, `ChecklistLaws.dfy` | ingredients merged into checklist rows |
| `ScratchChoice.dfy`, `Turn.dfy`, `TurnLaws.dfy`, `TurnRecipe.dfy`, `MatchIngredient.dfy` | one recipe turn: pauses, parallel workers, one cart write, the closing card, and all of it told from the recipe and the answers given |
| `Units.dfy`, `VariantSelection.dfy` | pack sizes, and the choice of a variant |
| `Candidates.dfy`, `Ranking.dfy` | search results, and the ranking of substitutes |
| `TagResolution.dfy`, `TagAnswers.dfy`, `TagService.dfy` | sticker resolution, single and batch, over the binding table, and what it answers |
| `BrandCache.dfy` | the bounded expiring cache of go-to brands |
| `PollFloor.dfy` | the ten-second floor on live order calls |

The operations that change state are methods on classes (`Swiggy`, `CartLockTable`, `OrderTable`,
`BrandPreferenceCache`, `TagBindings`, `PollCache`), each proved against a function or a step machine;
the laws are lemmas about that function or machine, so they hold of the methods. What a function computes is
also stated without it, on the inputs alone. Concurrency is a
step machine whose steps are the code between two `await`s, and a law about it is an invariant of
every reachable state.

Where the code does not do what is promised of it, the model keeps the code, the failing case is
given, and the law is stated with the exact condition under which it holds:

- `_merge` conserves quantities, and lowers none, exactly for a cart that names no id twice (`MergeConservesExactlyDistinctCarts`,
  `MergeLowersNothingExactlyFromDistinctCarts`); so an add or a compose lowers nothing, reviews aside, exactly from such a
  cart (`WritesRaiseExactlyFromDistinctCarts`).
- The answer of an add sorts its request into `added` and `rejected` exactly for distinct ids (`PartitionExactlyForDistinctIds`).
- A review is caught as a refusal although the write happened. Whatever cart Swiggy then writes, an add answers with the
  server's cart and the merge of what it accepted exactly if no review comes after the last accepted write
  (`AddIsRightExactlyWithoutALateReview`), and from a cart that names no id twice its next write lowers nothing under
  the same condition (`WritesRaiseExactlyUnreviewed`); a set's report, and the merge a compose leaves, are right exactly if their
  write met no review (`SetIsRightExactlyWithoutAReview`, `ComposeIsRightExactlyWithoutAReview`).
- A checkout's row is orphaned, and its user blocked, exactly by an unknown outcome with unreadable orders, by an order
  id that is already recorded, or by a crash (`OrphanedExactlyWhenLetGo`, `OrphanBlocksForever`).
- A batch of taps agrees with the single taps exactly for distinct tags (`BatchAgreesExactlyForDistinctTags`), and answers
  a tap as its binding warrants exactly if the tag's last tap in the batch reads the same text
  (`HitsRightlyExactlyForTheLastText`).
- Single taps prefer the remembered go-to brands and a batch fetches them, so they agree on every table and catalogue
  exactly while the remembered brands are the current ones (`BatchAgreesExactlyForFreshBrands`).
- A hit's own variant is on the picker exactly when the search still finds it (`BoundVariantShownExactlyIfFound`); the
  documentation says always.
- The least amount is bought exactly for a positive need (`ThriftyExactlyForPositiveNeed`).
- The ranking is independent of search order exactly when the key tells candidates apart (`OrderInvisibleExactlyWhenToldApart`).
- The card accounts for a turn's needed rows exactly when no earlier turn left matches (`CardAccountsExactlyForAFreshTurn`),
  and composing them adds only what the turn needs exactly when those matches hold nothing to buy
  (`CartGainsExactlyTheNeeded`).
- The plan is right about every needed row exactly when none shares its name with a row of another quantity or unit
  (`PlanIsRightExactlyWhenNamesSuffice`).
- The choice of a variant ignores whether it has a price, and a match without one breaks the plan's check constraint: a
  turn's plan cannot be stored exactly when some search that found stock puts no priced offer on top, prices aside, or an
  earlier match is unpriced (`UnpricedSearchStopsTheTurn`).
- Choosing ready-made spares the constituents exactly when the recipe did not list the ready-made item
  (`ReadyMadeReplacesExactlyWhenNew`).
- Running the choice node again is harmless exactly when there was a component to choose; without one it would show the
  recipe twice (`ReplayHarmlessExactlyWithComponent`).
- The brand cache keeps step with a most-recently-set list exactly unless it is full, the key is new, and a key inserted
  before the least recently set one expires together with it and not yet (`SetAgreesExactlyUntied`); four calls at one
  clock reading do that to an empty cache (`TiedReadingsForgetTheWrongKey`).
- Two live order calls start less than ten seconds apart exactly when the earlier has not been answered and nothing else
  was stored in the last ten seconds (`StartsCloseExactlyWhen`).

Every lemma switches automatic induction off: what is proved by induction says so in its body.

## Model

| member | source | states |
|---|---|---|
| `CartMerge.Merge` | app/cart/service.py:369-390 | the dictionary loop builds exactly the reference union: existing lines first and in order, then new ids in request order, each with its baseline plus everything added |
| `CartMerge.MergedTotal` | app/cart/service.py:369-390 | the union names no id twice and holds, of every id, the last existing line plus all additions |
| `CartMerge.MergeTwice` | app/cart/service.py:369-390 | merging two batches one after the other is merging their concatenation |
| `CartMerge.MergeKeepsOrder` | app/cart/service.py:382-390 | the lines stand in the order in which their ids first come up, in the cart and then in the request |
| `CartMerge.MergeNeverDropsOrLowers` | app/cart/service.py:369-390 | lines of a cart with distinct ids stay first, in order, and never go down; merging nothing changes nothing |
| `CartMerge.MergeConservesExactlyDistinctCarts` | app/cart/service.py:382-390 | nothing is lost in a merge if and only if the cart read named no id twice |
| `CartMerge.MergeLowersNothingExactlyFromDistinctCarts` | app/cart/service.py:382-390 | no merge of something lowers any id's quantity, if and only if the cart read named no id twice |
| `CartMerge.MergeForgetsADuplicate` | app/cart/service.py:382-383 | two baseline lines of 2 and 3 of one id become 3 |
| `CartService.AddItems` | app/cart/service.py:516-544 | the add is one complete run of its program: it leaves the server's cart and gives the answer that run gives |
| `CartService.TryOne` | app/cart/service.py:570-586 | one attempt writes the baseline, everything accepted so far and one candidate, and sorts the candidate by the answer |
| `CartService.AddIndividually` | app/cart/service.py:547-592 | the fallback loop is the item-by-item part of the program, and reads the cart back if nothing was accepted |
| `CartService.SetItemQuantity` | app/cart/service.py:611-645 | the set is one complete run of its program, including the missing line and the refused write |
| `CartService.RemoveItem` | app/cart/service.py:666-681 | the same of a remove, with the last line going through `clear_cart` |
| `CartService.EmptyCart` | app/cart/service.py:706-709 | the same of a clear |
| `CartService.ComposeOnto` | app/cart/service.py:269-291 | the same of a compose, with the read after a review and the skipped write when nothing can be bought; how it ends is `EndsExactlySo` |
| `CartEndings.EndsExactlySo` | app/cart/service.py:269-709 | from the cart at the start and the way Swiggy met the calls alone, each of the five operations is over exactly when no call is left, raises exactly when a call it does not recover from was not accepted (a declined write of an add or a set, and a reviewed one of a compose, are recovered from), and finds no line exactly when the cart read has none |
| `CartGuarantees.OperationsEnd` | app/cart/service.py:516-709 | an add ends after at most its item count plus three calls, every other operation after three |
| `CartGuarantees.NoEmptyWrite` | app/cart/service.py:269-277 | no operation ever writes an empty item list |
| `CartGuarantees.AddWritesExactlyTheAccepted` | app/cart/service.py:547-592 | an add that answers has sorted the request in order; its cart is the old one merged with the accepted items less silent drops, and is the server's unless a review came after the last accepted write, whose cart the server then holds; with nothing accepted it is the server's |
| `CartGuarantees.CleanAdd` | app/cart/service.py:516-544 | an accepted add leaves exactly the merge and reports every item added |
| `CartGuarantees.CandidAddKeepsCount` | app/cart/service.py:516-592 | onto any cart, an add of distinct ids that Swiggy accepts or refuses, in whole or in part, but drops nothing of, leaves that cart merged with exactly what it reports as added, and untouched if that is nothing |
| `CartGuarantees.PartitionExactlyForDistinctIds` | app/cart/service.py:538-541 | for every cart and every behaviour of Swiggy, added and rejected partition the request: if and only if it names no id twice |
| `CartGuarantees.ARepeatedIdCanVanish` | app/cart/service.py:539-541 | if one copy of a repeated id is refused and the other accepted, the accepted copy is in neither list |
| `CartAnswers.AddIsRightExactlyWithoutALateReview` | app/cart/service.py:521-544 | for every add and every way Swiggy answers: the answer is the server's cart and the merge of the accepted items, every item reported added is in it with its baseline and all that was asked for, and none reported dropped is, whatever is written for review, if and only if no review comes after the last accepted write |
| `CartAnswers.AddReportsEveryItem` | app/cart/service.py:538-541 | an add reports every item by how its own write was met: first the refused ones in request order, as refused, then exactly the accepted ones the cart lacks, as dropped; the other accepted ones are added |
| `CartAnswers.AddsOnlyRaise` | app/cart/service.py:516-592 | from a cart that names no id twice, every write of an add or a compose holds at least what the server's cart holds of every line, unless a review came after the last accepted write |
| `CartAnswers.WritesRaiseExactlyUnreviewed` | app/cart/service.py:562-592 | from a cart that names no id twice such a write lowers nothing, whatever was written for review, if and only if no review came after the last accepted write |
| `CartAnswers.WritesRaiseExactlyFromDistinctCarts` | app/cart/service.py:382-390 | no unreviewed write of any add or compose lowers a line of the server's cart, if and only if the cart at the start names no id twice |
| `CartAnswers.SetIsRightExactlyWithoutAReview` | app/cart/service.py:627-645 | a set that answers is right about its item and the cart, whatever is written for review, if and only if its write met no review |
| `CartAnswers.ComposeIsRightExactlyWithoutAReview` | app/cart/service.py:270-291 | a compose leaves the merge, whatever is written for review, if and only if its write met no review |
| `CartAnswers.OnlyTheNamedLine` | app/cart/service.py:616-677 | a set or remove writes every other line as the server has it, and the named one as asked |
| `CartAnswers.EveryAnswerIsHonest` | app/cart/service.py:595-709 | a set, remove, clear or compose that answers does so with the server's cart: a set's item added and there, dropped and not there, or refused with the cart untouched or reviewed; a removed line gone and no other but dropped ones; a cleared cart empty; a compose's merge less drops, or the reviewed cart; only an add or a set reports items; a missing line is reported and nothing written (when it raises instead is `EndsExactlySo`) |
| `CartLocks.CartLockTable.Enter` | app/cart/service.py:348-350 | the lock is found or created and the user's count goes up by one |
| `CartLocks.CartLockTable.Leave` | app/cart/service.py:355-359 | the count goes down, and lock and count are deleted together at zero |
| `CartInterleaving.LockTableIsExact` | app/cart/service.py:328-359 | in every reachable state, also after cancellation while waiting, both dictionaries have the keys and counts of the registered tasks, all tasks of a user share one lock object, and both are empty when idle |
| `CartInterleaving.MutualExclusion` | app/cart/service.py:333-353 | no two tasks of one user are ever inside at once |
| `CartInterleaving.NeverStuck` | app/cart/service.py:348-359 | while a task is registered some registered task can take a step, and a leaving one always finds its keys |
| `CartInterleaving.InterleavingsAreSerial` | app/cart/service.py:333-359 | the cart of every reachable state is what the operations leave when run one at a time in the order they got the lock, and every answer is that run's |
| `CartInterleaving.WorldIsOfItsRun` | app/cart/service.py:348-359 | the lock order, the answers of Swiggy and the finished tasks of that law are those of the run itself |
| `CartInterleaving.NoAdditionIsLost` | app/cart/service.py:335-347 | however adds of distinct ids interleave, refused in part or not, if Swiggy drops nothing silently the cart, whatever it was, is the old one merged with everything they report as added; and no quantity is lost if and only if the old one named no id twice or nothing was added |
| `CartInterleaving.NoRunSendsAnEmptyWrite` | app/cart/service.py:671-680 | in no interleaving is an empty item list written |
| `Checkout.CheckoutIsSafe` | app/cart/checkout.py:83-131 | over every interleaving: one `placing` row and one checkout under way per user, at most one call per row, no real order behind a `failed` row, the named one behind a `placed` row |
| `Checkout.FailedExactlyWhenRefused` | app/cart/checkout.py:103-131 | in every interleaving a row that is settled has exactly one call, and is `failed` if and only if Swiggy refused it |
| `Checkout.RealOrdersAreRecorded` | app/cart/checkout.py:103-122 | real orders never outnumber a user's `placed`, `unknown` and `placing` rows, even when reading the orders fails |
| `Checkout.SettledRowsStay` | app/cart/checkout.py:103-129 | a row that is no longer `placing` is never rewritten |
| `Checkout.OrphanBlocksForever` | app/models/order.py:57-65 | a `placing` row whose checkout is gone stays through every later run, and its user makes no further checkout call |
| `Checkout.OrphanedExactlyWhenLetGo` | app/cart/checkout.py:103-129 | in every run a step orphans a row if and only if it reads no orders after an unknown outcome, commits an order id already recorded, or is a crash of the row's holder |
| `Checkout.UnreadableOrdersOrphan` | app/cart/checkout.py:110-114 | an unknown outcome followed by a failing read of the orders leaves such a row |
| `CheckoutService.OrderTable.PlaceOrder` | app/cart/checkout.py:83-131 | the method is a run of the step machine; an empty cart, an unreadable one and a row in the way each give their own error and change nothing; otherwise it makes one call and leaves its own row, and no other, exactly as answered: refused is `failed`, a new order id is `placed` with it, an unknown outcome is `unknown`; with unreadable orders, or an order id already recorded, it stays `placing` and the caller gets an error |
| `Names.SplitJoin` | app/pantry/service.py:56 | splitting a joined list of words gives the words back |
| `Names.WordsOfNormalized` | app/pantry/service.py:40-56 | a normalized name reads back as the folded words of the name it came from |
| `Names.NormalizeIdempotent` | app/pantry/service.py:40-56 | normalizing twice is normalizing once |
| `Names.SameItemExactlySameWords` | app/pantry/service.py:40-56 | two names are one item if and only if their words agree up to case |
| `Names.EmptyExactlyWhenBlank` | app/pantry/service.py:53-56 | the normalized form is empty if and only if the name is blank |
| `Checklist.NormalizeIngredients` | app/agent/nodes/normalize.py:201-268 | the node's two dictionaries give exactly the group-by of the shown ingredients, under the user's marks or else the pantry's |
| `Checklist.AddToGroup` | app/agent/nodes/normalize.py:230-242 | one pass keeps the buckets equal to the group-by and the unit index pointing at them |
| `ChecklistLaws.RowUnknownExactlyWhenAllAre` | app/agent/nodes/normalize.py:250-253 | the row of a name and unit has an unknown quantity if and only if every listed ingredient of that name and unit has |
| `ChecklistLaws.RowWithoutUnitIsOnesOwn` | app/agent/nodes/normalize.py:230-242 | a row without a unit carries the name and quantity of one listed ingredient without a unit |
| `ChecklistLaws.AmountsConserved` | app/agent/nodes/normalize.py:226-261 | the known amount of every name and unit is the same before and after the merge |
| `ChecklistLaws.OneRowPerNameAndUnit` | app/agent/nodes/normalize.py:221-242 | one row for each name and unit that occurs; every ingredient without a unit keeps its own |
| `ChecklistLaws.RowsAreMarked` | app/agent/nodes/normalize.py:247-249 | a row is ticked if and only if its name is marked |
| `ChecklistLaws.MergeIdempotent` | app/agent/nodes/normalize.py:226-261 | merging the rows again changes nothing |
| `ChecklistLaws.RowExactlyWhenListed` | app/agent/nodes/normalize.py:42-84 | there is a row of a name and unit if and only if the recipe has such an ingredient that the user does not bring and that is neither salt, water nor flagged as a staple, or is half a kilogram of one |
| `ChecklistLaws.NamesInOrder` | app/agent/nodes/normalize.py:221-261 | rows of two names stand in the order in which the names were first listed |
| `ChecklistLaws.UnitsInOrder` | app/agent/nodes/normalize.py:230-242 | rows of one name stand in the order in which their units were first listed for it |
| `ScratchChoice.ReplayChangesNothing` | app/agent/nodes/scratch_choice.py:123-144 | applying a recorded choice again leaves the recipe as it is |
| `ScratchChoice.ReadyMadeReplacesExactlyWhenNew` | app/agent/nodes/scratch_choice.py:123-144 | for a valid component the chosen recipe is rid of its constituents if and only if the ready-made item was not an ingredient already |
| `ScratchChoice.OtherIngredientsStay` | app/agent/nodes/scratch_choice.py:136-144 | choosing ready-made, every ingredient that is no constituent stays and the ready-made item is listed |
| `ScratchChoice.ChoiceDecidesTheList` | app/agent/nodes/scratch_choice.py:123-144 | from scratch, or with the ready-made item listed already, the recipe is unchanged; otherwise exactly the constituents are gone and exactly the ready-made item is new |
| `ScratchChoice.NothingOfTheUsersMakesWay` | app/agent/nodes/scratch_choice.py:42-72 | under any choice about a component that may be offered, what the user brings stays on the list |
| `ScratchChoice.CandidateHasTwo` | app/agent/nodes/scratch_choice.py:42-72 | a component that may be offered is made of at least two listed ingredients of different names |
| `TurnLaws.PausesLeaveNoTrace` | app/agent/graph.py:285-303 | however often a turn pauses, is answered unreadably or has its choice replayed, it ends in the state of the uninterrupted turn with the same answers |
| `TurnLaws.ReplayHarmlessExactlyWithComponent` | app/agent/nodes/scratch_choice.py:147-158 | running the finished choice node again changes nothing if and only if there was a component to choose |
| `TurnLaws.NothingIsWrittenWithoutConsent` | app/agent/nodes/confirm_checklist.py:78-86 | the cart is written at most once, only after the checklist was answered, and only with what the matches hold, also when the compose fails before or after its write |
| `TurnLaws.EveryStepMovesOn` | app/agent/graph.py:285-303 | every step lowers the rank of the node, finishes a worker, or changes nothing: the graph has no cycle |
| `TurnLaws.NeverStranded` | app/agent/nodes/match_ingredient.py:209-217 | an unfinished turn always has a step that moves it, also when nothing is needed |
| `TurnLaws.OneMatchPerNeededRow` | app/agent/nodes/match_ingredient.py:81-85 | in whatever order workers finish, the matches a turn adds are those of the needed rows, one each, and the card has one row per match |
| `TurnLaws.CardAccountsExactlyForAFreshTurn` | app/agent/state.py:127 | the card's rows are the needed rows if and only if the turn began with no matches |
| `TurnLaws.CardShowsTheCart` | app/agent/nodes/cart.py:141-155 | a card row is in the cart if and only if the cart read back has a line of its variant, and then shows that line's quantity |
| `TurnLaws.CartGainsExactlyTheNeeded` | app/agent/nodes/cart.py:105-126 | every compose run of a turn's matches leaves the cart, drops aside, with what earlier matches hold and what this turn found; with the latter alone, for every cart and every answer, if and only if the earlier matches can buy nothing |
| `TurnLaws.CartIgnoresFinishingOrder` | app/agent/nodes/match_ingredient.py:225-231 | the same matches in any order leave the same quantities in the cart |
| `TurnLaws.EveryAmountIsAccountedFor` | app/agent/nodes/match_ingredient.py:61-85 | every known amount of the chosen recipe is omitted, ticked off, or on a row a worker resolved, per name and unit |
| `TurnLaws.EveryUnitlessIngredientIsAccountedFor` | app/agent/nodes/match_ingredient.py:191-217 | every ingredient without a unit, measured or not, is omitted, ticked off, or has a match of its own: counted by name, none is lost and none is matched twice |
| `TurnLaws.EveryUnitIsAccountedForOnce` | app/agent/nodes/match_ingredient.py:191-217 | all ingredients of one name and unit that are not omitted share exactly one ticked row or one match, and there is neither if there are none |
| `TurnLaws.PlanIsRightExactlyWhenNamesSuffice` | app/agent/nodes/cart.py:105-117 | the stored plan carries every needed row's own quantity and unit if and only if no needed row shares its name with a row of another quantity or unit |
| `TurnRecipe.GoesByWhatHappened` | app/agent/graph.py:285-303 | the choice, the ticked names, the matches and the read-back cart a turn goes by are those its run was given |
| `TurnRecipe.RecipeIsAsChosen` | app/agent/nodes/scratch_choice.py:147-165 | past its choice a turn has the recipe it began with, if made from scratch, without a component, or with the ready-made item listed already; otherwise that recipe with exactly the constituents gone and exactly the ready-made item new; it is shown once |
| `TurnRecipe.ChecklistIsOfTheRecipe` | app/agent/nodes/normalize.py:197-268 | the checklist has a row for each name and unit the recipe lists, ticked by the user's earlier marks or, without any, by what the pantry has in stock |
| `TurnRecipe.AnswerDecidesWhatIsNeeded` | app/agent/nodes/match_ingredient.py:61-85 | the workers were sent exactly the rows whose names the user's answer does not tick, whatever the rows said |
| `TurnRecipe.EveryAmountOfTheRecipe` | app/agent/nodes/match_ingredient.py:61-85 | every known amount of the recipe the turn began with makes way for the ready-made item, is the user's own or a staple, is ticked off, or is on a row a worker resolved, per name and unit |
| `TurnRecipe.EveryUnitlessIngredientOfTheRecipe` | app/agent/nodes/match_ingredient.py:61-85 | counted by name, the listed ingredients without a unit of the recipe the turn began with, and the ready-made item if constituents made way, are exactly the ticked rows and the matches without a unit |
| `TurnRecipe.WritesWhatWasFound` | app/cart/service.py:258-277 | a turn writes at most once, and of every variant exactly what earlier matches and the workers of the run found of it with a count and a price |
| `TurnRecipe.EndedTurnsHaveWritten` | app/cart/service.py:269-291 | an ended turn has written if and only if some match could be bought |
| `TurnRecipe.PlanTakesTheLastRow` | app/agent/nodes/cart.py:105-117 | a stored plan row holds its match and the quantity and unit of the last row of that name |
| `MatchIngredient.Resolve` | app/agent/nodes/match_ingredient.py:141-188 | the worker raises exactly when a search it makes fails for the whole turn; otherwise its match is the offer in stock that none is better than, in the count it should be, or one pack of the cheapest substitute of the second search, or unavailable; and the plan takes it exactly if the first search allows |
| `MatchIngredient.SecondSearchOnlyHelpsIfItDiffers` | app/agent/nodes/match_ingredient.py:144-151 | if nothing searched is in stock, the same results hold no substitute either |
| `MatchIngredient.PlannedExactlyWhenPriced` | app/models/cart.py:82-88 | a match satisfies the plan's check constraint if and only if its search found no stock or put a priced offer on top once prices are set aside |
| `MatchIngredient.UnpricedSearchStopsTheTurn` | app/cart/service.py:240-255 | a turn fails as its plan is stored, and writes no cart, if and only if an earlier match is unpriced or some search that found stock puts no priced offer on top |
| `MatchIngredient.OnePackOfTheUnmeasured` | app/cart/service.py:155-169 | in every ended turn a row without a quantity or a known unit, for which something was in stock, adds exactly one pack |
| `MatchIngredient.ResolvedIsLeast` | app/agent/nodes/match_ingredient.py:141-188 | the match of a row that can be counted out against its search is the least purchase that covers its need |
| `MatchIngredient.EveryCountedNeedIsCovered` | app/agent/nodes/cart.py:105-126 | in every ended turn each row that can be counted out has a least purchase, and every compose of the turn without a review, on whatever cart, leaves the cart with enough of that variant to cover the row's need, unless Swiggy dropped the line |
| `Units.SearchFindsTheSize` | app/cart/units.py:17 | a size written as a number, optional space and a unit is what the pattern matches, behind any text without digits or points |
| `Units.WholeSizeReadsBack` | app/cart/units.py:53-67 | a whole number of a unit parses to that much of it |
| `Units.PointedSizeReadsBack` | app/cart/units.py:53-67 | so does a number with a point |
| `Units.OneAndAHalfKilograms` | app/cart/units.py:53-67 | `1.5 kg` is fifteen hundred grams |
| `Units.MultipackIsUnreadable` | app/cart/units.py:53-67 | a multipack is read as a count of an unknown unit, so it has no size |
| `Units.TwoPointsAreNoAmount` | app/cart/units.py:53-67 | a size whose number has a second point parses to nothing, although the pattern matches it |
| `Units.EveryUnit` | app/cart/units.py:20-50 | every unit's base and factor; any other word is no unit |
| `Units.UnitsInAnyCase` | app/cart/units.py:39-50 | a unit may be written in any case and with space around it |
| `Units.OneDigit` | app/cart/units.py:53-67 | one digit of a unit is that many of it |
| `Units.NextDigit` | app/cart/units.py:53-67 | a digit more makes an amount ten times as much and that digit more |
| `Units.NextDecimal` | app/cart/units.py:53-67 | a digit more behind the point counts for its tenth, hundredth and so on |
| `VariantSelection.Least` | app/cart/service.py:107 | the loop finds the first of the least keys |
| `VariantSelection.SelectVariant` | app/cart/service.py:88-141 | nothing in stock is unavailable; otherwise the selected variant is in stock and no other is better (countable first, then least amount, brand asked for, price, place); it is bought in the least number of packs that covers the need, or one pack of unknown overage if that cannot be told, and is a substitute exactly if another brand was asked for; a positive need that can be counted out is covered with the least any variant can |
| `VariantSelection.StockInOrder` | app/cart/service.py:92-97 | what is in stock is gathered once, product by product and variant by variant as the search returned it |
| `VariantSelection.PacksAreLeast` | app/cart/service.py:172-187 | for a positive need the count covers it, no smaller count does, and less than a pack is left over |
| `VariantSelection.BuysTheLeastThatCovers` | app/cart/service.py:107-205 | the chosen variant covers the need, and no covering count of any countable variant in stock holds less |
| `VariantSelection.TiesBrokenInOrder` | app/cart/service.py:202-205 | equal amounts go to the preferred brand, then the lower price (none is highest), then the earlier result |
| `VariantSelection.PricedOnTopIsChosen` | app/cart/service.py:202-205 | the chosen offer has a price if and only if some priced offer is undercut by none once prices are set aside |
| `VariantSelection.BrandAndPriceDecideWhenNothingComputes` | app/cart/service.py:190-205 | if no variant can be counted, brand, price and search order decide alone |
| `VariantSelection.ThriftyExactlyForPositiveNeed` | app/cart/service.py:186-200 | whatever is on offer the least amount is chosen, if and only if the need is positive |
| `Candidates.PurchasableMembers` | app/matching/substitution.py:127-149 | a candidate is collected if and only if it is in stock and priced |
| `Candidates.PurchasableInOrder` | app/matching/substitution.py:127-149 | candidates are collected once, in the order of the search |
| `Ranking.SortIsStable` | app/matching/substitution.py:119-124 | the sort keeps the same candidates, in key order, equals as they stood |
| `Ranking.SortedListsAgree` | app/matching/substitution.py:119-124 | those three promises fix the result |
| `Ranking.KeysAreTotallyOrdered` | app/matching/substitution.py:63-82 | the ranking key is a strict total order |
| `Ranking.OrderInvisibleExactlyWhenToldApart` | app/matching/substitution.py:85-124 | every order of the same candidates ranks the same if and only if no two different ones share a key |
| `Ranking.RankingIgnoresSearchOrder` | app/matching/substitution.py:85-124 | with distinct variants, ranking and substitute do not depend on search order |
| `Ranking.SubstituteIsTheClosest` | app/matching/substitution.py:268-279 | a substitute is proposed if and only if something can be bought, and nothing that can be bought ranks above it |
| `Ranking.RankedAhead` | app/matching/substitution.py:63-124 | the ranking is what can be bought, and puts nothing behind what it should go ahead of: bought before, comparable pack, closest pack, lower price, lesser variant |
| `Ranking.SubstituteIsTheCheapest` | app/matching/substitution.py:268-279 | with no pack preferred the substitute is the cheapest, and of the cheapest the least by variant |
| `Ranking.BeforeAtFirstDifference` | app/matching/substitution.py:63-82 | variants are compared where their names first differ |
| `TagService.PreferByBrand` | app/matching/substitution.py:152-182 | the loop finds the first candidate of a preferred brand, or else the first candidate |
| `TagService.SearchSlugs` | app/tags/service.py:493-534 | every query is searched once, a failed search finds nothing, and one refusal of the link refuses them all |
| `TagService.TagBindings.ResolveTap` | app/tags/service.py:283-332 | one tap is answered from its binding, bound to the preferred candidate, or left unresolved, and only its own row changes |
| `TagService.TagBindings.ResolveOne` | app/tags/service.py:148-216 | a tap is refused exactly when the link fails its go-to lookup or its search; else it is answered from its own row if that is for this address and text, or bound to the first candidate of a brand on the go-to list (or of a remembered brand), or to the first of all, with the pantry item of its text, or unresolved; the table changes by exactly that, and the menu is the first ten with the winner among them if found |
| `TagService.TagBindings.ResolveBatch` | app/tags/service.py:89-145 | a batch is refused exactly when the link fails its go-to lookup or the search of a tap no row answers; else every tap is answered, under its tag's last text, in the same way by the go-to list, the table changes by exactly the new bindings, and each distinct unbound slug is searched exactly once, no other |
| `TagAnswers.BatchAnswersEach` | app/tags/service.py:89-145 | the law of the batch on the table, the go-to list, the searches and the pantry alone |
| `TagService.TagBindings.Rebind` | app/tags/service.py:244-269 | the row takes the chosen item and address and keeps its text and pantry item |
| `TagService.TagBindings.Unbind` | app/tags/service.py:272-280 | the row is gone, and no other |
| `TagResolution.BatchIsOneByOne` | app/tags/service.py:89-216 | for distinct tags and an accepted link, batch and single taps give the same answers and the same table |
| `TagResolution.BatchAgreesExactlyForDistinctTags` | app/tags/service.py:90-92 | they agree for every table and every catalogue if and only if no tag is tapped twice |
| `TagResolution.BatchAgreesExactlyForFreshBrands` | app/tags/service.py:388-420 | distinct taps, taken singly with the brands the cache remembers, get the answers and the table of one batch with the brands fetched now, on every table and catalogue, if and only if those are the same brands |
| `TagResolution.CachedExactlyWhenStillValid` | app/tags/service.py:183-196 | after any run of taps, batches, corrections and removals, a tap is answered from its binding if and only if the last its owner was told of is for this address and this text, and with that item |
| `TagResolution.HitsRightlyExactlyForTheLastText` | app/tags/service.py:90-109 | for every table and catalogue a batch answers a tap from its binding exactly when that is still valid, if and only if the tag's last tap in the batch reads the same text |
| `TagResolution.BatchCachedExactlyWhenStillValid` | app/tags/service.py:104-109 | after any run, such a tap is a hit if and only if what its owner was last told of is still valid, and with that item |
| `TagResolution.ARelabelledTagAnswersForItsLastText` | app/tags/service.py:90-109 | in any batch, a tap whose tag reads otherwise last is answered with the item bound to that last text |
| `TagResolution.UnresolvedWritesNothing` | app/tags/service.py:312-319 | a tap is unresolved if and only if no binding answers and nothing can be bought; only a new binding changes the table |
| `TagResolution.BoundToTheFirstPreferred` | app/tags/service.py:312-332 | a new binding is to the first candidate of a preferred brand, or the first of all if none is, and the row and the answer carry that candidate, this text and this address |
| `TagResolution.CappedShowsTheWinner` | app/tags/service.py:335-350 | the picker holds at most ten candidates in search order, the winner always among them |
| `TagResolution.BoundVariantShownExactlyIfFound` | app/tags/service.py:353-366 | on a hit the bound variant is on the picker if and only if it can still be bought |
| `BrandCache.BrandPreferenceCache.Get` | app/tags/cache.py:45-60 | an answer is the last set stored under its key and not expired; in step, there is one if and only if moreover fewer other keys than the bound were set since |
| `BrandCache.BrandPreferenceCache.Set` | app/tags/cache.py:62-76 | for any readings of a monotone clock the cache stays within its bound and true to what was stored; in step it stays so exactly unless tied, and always while no two readings are equal |
| `BrandCache.SweptExactly` | app/tags/cache.py:82-89 | what a sweep leaves is exactly the entries that have not expired, as they were |
| `BrandCache.BrandPreferenceCache.Sweep` | app/tags/cache.py:82-89 | exactly the expired entries go |
| `BrandCache.RecalledExactlyWhen` | app/tags/cache.py:45-76 | the recency list of a bound remembers a key if and only if its last set has not expired and fewer other keys than the bound were set since |
| `BrandCache.SetAgreesExactlyUntied` | app/tags/cache.py:62-76 | after a set the live entries are the unexpired keys among the bound's most recently set ones, with their last values, if and only if there was no tie: cache full, key new, and a key ahead of the least recently set one expiring with it, still live |
| `BrandCache.VictimIsLast` | app/tags/cache.py:71-75 | a full cache gives up the least recently set key if and only if none ahead of it expires with it |
| `BrandCache.VictimAmongTies` | app/tags/cache.py:74 | of entries that expire together the one inserted first goes |
| `BrandCache.TiedReadingsForgetTheWrongKey` | app/tags/cache.py:71-76 | of four sets on an empty cache of two at one clock reading, the first three keep it in step and the last leaves it out: a key set again goes before one set earlier |
| `PollFloor.PollCache.Look` | app/orders/service.py:181-187 | the first part of a call serves the cached answer inside the floor, and starts a live call otherwise |
| `PollFloor.PollCache.Keep` | app/orders/service.py:187-189 | the second part stores an answer with the time it came, and nothing for a failure |
| `PollFloor.CloseCallsOverlap` | app/orders/service.py:243-260 | in every interleaving, of two live calls of one key the later starts ten seconds after the end of the earlier, unless that failed or was still running when the later checked |
| `PollFloor.LiveCallsAreSpaced` | app/orders/service.py:243-260 | a call that checks while no other runs starts ten seconds after the end of every answered one of its key |
| `PollFloor.ServedAnswersAreFresh` | app/orders/service.py:245-248 | in every interleaving a cached answer is the newest stored one for its key and less than ten seconds old |
| `PollFloor.StartsCloseExactlyWhen` | app/orders/service.py:181-189 | in every interleaving a check starts a live call within ten seconds of another's start if and only if that one has not been answered yet and no other call of the key has in the last ten seconds |

## Left out

- CartInterleaving.NoAdditionIsLost: for users whose tasks are all adds of distinct ids, and a Swiggy that drops nothing silently; any other mix of operations is `InterleavingsAreSerial`.
- CheckoutService.OrderTable.PlaceOrder: for an attempt that is not cut off; a crash is `OrphanedExactlyWhenLetGo`.
- TurnLaws.CartGainsExactlyTheNeeded: for composes without a review, after which the cart is Swiggy's own.
- MatchIngredient.EveryCountedNeedIsCovered: likewise for composes without a review.
- BrandCache.BrandPreferenceCache.constructor: a bound of at least one entry (with none, `min` of an empty dictionary raises).
- TurnLaws.NeverStranded: a turn can still fail, when a worker raises, the plan's check constraint is broken, or the cart leg fails.
- MatchIngredient.Resolve: the retries of a worker are the same worker run again, and are not counted.
- Carts edited from another process or in the Swiggy app: the lock disclaims them (app/cart/service.py:341-346).
- Cancellation inside the critical section: only a task that waits is cancelled; one inside ends by finishing or by an error.
- The two `async with _cart_locks_guard` blocks hold no `await` inside, so each is one step.
- Cart lines with a quantity of zero or less from the server: parsing them as inputs raises, and the model's lines are positive.
- Display names, prices and images of cart lines, the subtotal and the minimum-order report.
- The pantry stamp after a placed order, and totals and timestamps on order rows.
- Timestamps of bindings (`last_used_at`), and the order in which distinct slugs are searched (sorted in the code, concurrent anyway).
- The model writes a refused batch of taps as no change at all; marking the link expired is not part of it.
- Floats and 28-digit decimals are exact reals; lengths and signs enforced by column constraints are not modelled.
- Unicode: case folding is any stable per-character fold that makes no whitespace; units and pack sizes are ASCII.
- The search for a ready-made component: the turn starts with its result, and any valid component is covered.
- The intents of a turn other than a recipe (order status, cooking, small talk, refusal) end after one node and write no cart.
- A new message sent while a turn is paused, and the streamed-turn grammar of app/chat/service.py.
- Superseding a chat session's earlier plan: one update when a new plan is stored.
- Model calls, prompts, titles, prose, HTTP, SSE, OAuth, and database transport.
