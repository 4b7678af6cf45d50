# Verification of the AI-answer screening platform

The platform screens student answers: instructors and their assistants submit answers one
by one or in batches, a worker judges queued rows, and a data pipeline builds the corpora the
detector is trained and measured on. This project models its hardest parts in Dafny and
proves what they promise.

`dafny verify dfyconfig.toml` checks everything.

| Part | Modules | What is proved |
|---|---|---|
| Exact selection by maximum flow | `SelectionSpec`, `FlowNetwork`, `Select`, `SelectionCaps` | The in-place residual network, its breadth-first search and its augmentation return a largest selection; a band is refused exactly when no selection meets the count |
| Accounts, sessions, batches, worker and queue | `Records`, `Accounts`, `AccountEffects`, `AccountProofs`, `LedgerSteps`, `LedgerEffects`, `LedgerProofs`, `Sessions`, `System`, `SystemProofs`, `Effects`, `Redelivery`, `SignOut`, `Store` | Invariants of one transition system over every run; a re-provisioned account inherits nothing; when redelivery breaks that, exactly; every service call, written over the stored tables, refines its step |
| Word edit distance | `EditDistance` | The two-row table computes the least number of edits; the metric laws |
| Leak-free splitting | `TextOrder`, `QuestionGroups`, `Partitions` | Union-find computes the closure; its names separate groups; partitions keep groups whole and none is empty |
| Sampling and splicing | `Grouping`, `Apportion`, `Splice`, `EditorDeal` | Largest remainders, the incremental share and when it has no denominator, round-robin dealing |
| Operating point, history pages, batch files | `RocThreshold`, `Keyset`, `BatchCells`, `BatchParsing` | Budget and oracle, pages read to the end under concurrent inserts, every data row accounted for once |

## How the accounts and the queue are modelled

`System` has one action per service call, each with its own clock reading and a strictly
increasing clock. Two calls are split: a status change is an unlocked read (`Ask`) and a
locked decision (`Settle`) with anything in between, and a submission is a commit (`Submit`)
followed by one step for every row sent or lost. The queue is the environment: a message
whose deletion was lost is delivered again (`Work` or `DrainDead` with `acked` false), and
any queued message may move to the dead-letter queue. `Store` holds the same state in the
fields of a class. Its methods follow the services statement by statement, and their
contracts equate the new state with the action's result, or give the run that leads to it.
`AccountEffects` and `LedgerEffects` say row by row what each operation does to the stored
tables; the contracts in `Store` repeat it on its fields, and `Effects` says it of every action.
What the outside answers enters `Store` as arguments: which messages a receive call hands out
of a queue, whether scoring, a commit or an invitation goes through, what a deletion comes to,
and which rows the queue accepts.

## Where the code and its documentation part

- `select` promises never more than `per_model` per model. A model listed twice is linked
  twice and gets twice the capacity, so the promise holds exactly when models are listed once
  or `per_model` is 0 (`SelectionCaps.CapRespectedIffListedOnce`). Its only caller lists them
  once, as does the selection's main theorem.
- `word_edit_distance` says 1 means nothing in common. Over all lists of two given lengths
  that is right exactly when one length is at most 1 and they are not both 0
  (`EditDistance.OneReadRight`); `EditDistance.SharedYetFarApart` gives a pair of every other
  lengths, and two swapped words are the shortest one.
- Deleting a user cancels the batches that have fewer outcomes than rows. When a message is
  judged twice because its deletion was lost, the counts reach the row total while another row
  is still queued; that batch is not cancelled and its row is judged for the next holder of
  the account. `Redelivery.DeletionIsInheritedExactly` gives the exact condition at the moment
  of the deletion, `Redelivery.InheritedIffStraggler` at any moment after it, and
  `Redelivery.RedeliveryLetsWorkBeInherited` a run from a fresh start.
- `sign_out_everywhere` means to accept live sessions only, so that a stale token cannot sign
  its user out, but looks at revocation alone. It ends a working session on behalf of a token
  that no longer works exactly when that token is past a limit and its user has another
  session within both (`SignOut.StaleSignOutExactly`); `SignOut.StaleTokenSignsOut` is a run
  from a fresh start that ends so.
- `threshold_at_fpr` promises the lowest threshold within the budget. It returns the highest
  one with the best recall; the two agree exactly when the last vertex in budget catches a
  positive the one before it misses (`RocThreshold.LowestOnlyIfItCatchesMore`).
- `oracle_tpr_at_fpr` is the best recall achievable on a whole sweep. With vertices dropped it
  stays so for every budget exactly when each dropped vertex has a kept one at least as good
  in both rates (`RocThreshold.DroppingIsHarmlessExactly`);
  `RocThreshold.DroppedVertexCostsRecall` is a sweep on which it halves.
- `band_candidates` divides by zero when a position set leaves no counted word, while
  `ai_share` guards against that. With h human sentences that have a word and k the larger of
  h and 1, some draws make it fail exactly when k is less than the number of human sentences,
  the donor has k sentences and its first k have no word
  (`Splice.CanFailExactlyOnWordlessPairs`); when all sets of k positions are tried, it then
  fails for certain (`Splice.FailsExactlyOnWordlessPairs`). `Splice.PunctuationFails` is such
  a pair.
- `purge_expired_sessions` with a batch size of 0 ends at once and removes nothing.

## Model

| member | source | states |
|---|---|---|
| Select.Network.constructor | apps/data-pipeline/app/splicer/select.py:16-32 | The linked network has exactly the edges and capacities of the problem: per_model a model (added up when listed twice), 1 a candidate of a listed model, max_base_uses a base |
| Select.Network.Search | apps/data-pipeline/app/splicer/select.py:36-45 | The breadth-first search reaches the sink exactly when an augmenting path exists; otherwise the nodes reached are closed under remaining capacity |
| Select.Network.Augment | apps/data-pipeline/app/splicer/select.py:46-51 | One augmentation keeps edge sums, non-negative capacities and conservation, picks exactly one candidate more, and lowers no model's count and no base's use |
| Select.Network.Saturate | apps/data-pipeline/app/splicer/select.py:34-51 | The loop terminates, with no augmenting path left and a largest selection chosen |
| Select.Select | apps/data-pipeline/app/splicer/select.py:8-58 | What is returned is a largest selection within both caps, in the order in which the candidates were tried and without repeats, and every count is the number chosen for that model |
| Select.FillBand | apps/data-pipeline/app/splicer/build_spliced.py:174-179 | A band is refused exactly when no selection gives every model the wanted count; the refusal names exactly the models that fell short in a largest selection, with their counts |
| Select.ShortMeansImpossible | apps/data-pipeline/app/splicer/build_spliced.py:176-179 | For a largest selection, nobody is short exactly when it is exact, and it is exact exactly when some exact selection exists |
| FlowNetwork.PushMovesExcess | apps/data-pipeline/app/splicer/select.py:49-50 | Pushing one unit along an edge with room moves one unit of excess from its head to its tail and keeps every other node's balance |
| FlowNetwork.BalancedIsValid | apps/data-pipeline/app/splicer/select.py:53-57 | In a balanced network the saturated candidates are a valid selection |
| FlowNetwork.CutBoundsEverySelection | apps/data-pipeline/app/splicer/select.py:1-3 | Weak duality: no valid selection at all is larger than the chosen set once the reached nodes are closed under remaining capacity |
| SelectionSpec.LargestIsExactWhenPossible | apps/data-pipeline/app/splicer/select.py:1-3 | With models listed once, a largest selection meets the count for every model as soon as any selection does |
| SelectionSpec.TotalBound | apps/data-pipeline/app/splicer/select.py:24-25 | No selection, hence no flow and no number of augmentations, exceeds the number of listed models times per_model |
| SelectionCaps.CapRespectedIffListedOnce | apps/data-pipeline/app/splicer/select.py:9-13 | The documented cap per model holds for all candidate lists exactly when no model is listed twice or the cap is 0 |
| SelectionCaps.CrowdOverfills | apps/data-pipeline/app/splicer/select.py:24-25 | A concrete candidate list on which a model listed twice gets one more than the cap |
| SystemProofs.ReprovisionedInheritNothing | apps/api/app/services/users_service.py:209-219 | From a fresh start, over every run in which outcome and deletion of a message are one step: all invariants hold, rows balance, and whoever owns a check of a batch owns the batch, so nothing a previous holder started is inherited |
| SystemProofs.CleanRunsInheritNothing | apps/api/app/services/users_service.py:589-599 | The same, under any redelivery, as long as every deletion finds that batches with as many outcomes as rows have nothing left to judge |
| SystemProofs.ExactRunsStayBalanced | apps/worker/worker/main.py:121-142 | Exactly-once runs keep the row balance, which makes each of their deletions find truthful counts |
| SystemProofs.StepIsSound | apps/api/app/services/users_service.py:222-280 | Every action of the system keeps every invariant of accounts and ledger, signs out assistants it leaves unsupervised, and revives no dead token |
| Effects.EveryActionDoes | apps/api/app/services/users_service.py:222-280 | What every action does to users, links, sessions, events, batches, checks, failures and queues, row by row, and that nothing else moves |
| Effects.CancelStopsForGood | apps/api/app/services/batches_service.py:252-257 | A cancel marks its batch, and no run afterwards adds a check to it |
| Effects.StoppedForGood | apps/worker/worker/main.py:40-55 | The same for any batch that is cancelled or has nothing left in transit |
| Effects.NewWorkIsOwned | apps/api/app/models/user.py:84-88 | What an active user submits or screens is theirs |
| Effects.WorkStaysOwned | apps/api/app/models/user.py:84-95 | It stays theirs through every action but an invitation of their own row |
| Effects.NothingOlderIsOwned | apps/api/app/models/user.py:84-95 | A re-provisioned row owns nothing that was there before |
| Effects.ScreeningNeedsTeam | apps/api/app/models/user.py:66-77 | Who may submit: an active user, and an assistant only with an open link to an active user |
| SystemProofs.RunIsSound | apps/api/app/services/users_service.py:111-115 | All these invariants hold after every run under arbitrary redelivery |
| SystemProofs.RevokedTokensStayDead | apps/api/app/services/sessions.py:89-108 | A token once revoked never authenticates again, at any time, after any run, re-provisioning included |
| SystemProofs.InactiveHoldersTokensStayDead | apps/api/app/services/users_service.py:254-257 | No token of a user who is deactivated or deleted now works after any run, whatever becomes of the account |
| SystemProofs.SignedOutTokensStayDead | apps/api/app/services/sessions.py:139-164 | After a sign-out no token its user held works after any run |
| SignOut.SignOutEndsTheUsersSessions | apps/api/app/services/sessions.py:139-164 | What still works after a sign-out is exactly what worked before and belongs to another user |
| SignOut.StaleSignOutExactly | apps/api/app/services/sessions.py:149-158 | A token that no longer works ends a session that does exactly when it is past a limit and its user has another unrevoked session within both limits |
| SignOut.StaleTokenSignsOut | apps/api/app/services/sessions.py:149-158 | A concrete run from a fresh start in which an idle token ends its user's working session |
| SystemProofs.PredecessorsStayStopped | apps/worker/worker/main.py:40-55 | Batches of previous holders stay unable to produce checks across every action |
| SystemProofs.StoppedGetsNoCheck | apps/worker/worker/main.py:40-55 | No action adds a check to a batch that is cancelled or has nothing left in transit |
| SystemProofs.NothingInheritedStep | apps/api/app/models/user.py:84-95 | Across every action, owners of a check remain owners of its batch |
| Redelivery.InheritedIffStraggler | apps/api/app/services/users_service.py:209-219 | A deleted account's work can be inherited by its next holder exactly when an unsent or queued row of one of its uncancelled batches remains |
| Redelivery.DeletionLeavesStragglerExactly | apps/api/app/services/users_service.py:209-219 | A granted deletion leaves such a row exactly when some uncancelled batch of the user has as many outcomes as rows and still a row to judge |
| Redelivery.DeletionIsInheritedExactly | apps/api/app/services/users_service.py:209-219 | So work can be inherited after a deletion exactly when the counts it relied on did not tell the truth |
| Redelivery.NoStragglerNoInheritance | apps/worker/worker/main.py:40-67 | Without such a row no run whatever leads to inheritance |
| Redelivery.RedeliveryLetsWorkBeInherited | apps/worker/worker/main.py:121-142 | A concrete run from a fresh start, with one lost deletion, after which a deleted account's row can be inherited |
| AccountEffects.AllowedMoves | apps/api/app/services/users_service.py:111-115 | The moves a status can make are those to another status, and none out of deleted |
| AccountEffects.TransitionEffect | apps/api/app/services/users_service.py:242-274 | A status change: the target's status and nothing else about users; on deletion exactly its open links end, by the actor; exactly its sessions and those of assistants left alone are revoked; one event |
| AccountEffects.ChangeRoleEffect | apps/api/app/services/users_service.py:378-386 | A role change: the target has the new role; if it differs, exactly its open links end and exactly the assistants left alone are signed out |
| AccountEffects.AddLinkEffect | apps/api/app/services/users_service.py:481-499 | The pair is linked afterwards, with a new link only if it had none |
| AccountEffects.EndLinkEffect | apps/api/app/services/users_service.py:545-547 | One link ends, and exactly its assistant is signed out if no active team is left |
| AccountEffects.ProvisionEffect | apps/api/app/services/users_service.py:589-620 | The row is active with address and role, marked if it was there before; with a supervisor the link is made in the same commit, and without one no link changes |
| AccountEffects.SignInEffect | apps/api/app/services/sessions.py:29-50 | A session of four hours; of the user's others exactly those a month past their end go |
| AccountEffects.SignOutEffect | apps/api/app/services/sessions.py:123-136 | Exactly the user's live sessions are revoked |
| AccountEffects.DropOldSessionsEffect | apps/api/app/services/sessions.py:54-71 | Exactly the rows a month past their end go |
| AccountEffects.VisitEffect | apps/api/app/services/sessions.py:110-113 | A request moves only its own session's activity, and only when it touches a fresh one after a minute |
| AccountEffects.AnswersTell | apps/api/app/services/sessions.py:92-108 | Which answer is given, by account, revocation and the two limits |
| AccountEffects.AliveNamesTheEnd | apps/api/app/services/sessions.py:115-120 | The end named in a successful answer is when a probe first fails; the idle limit is half an hour after the stored activity |
| LedgerEffects.CancelUnfinishedEffect | apps/api/app/services/users_service.py:209-219 | Exactly the user's uncancelled batches with fewer checks and failures than rows are marked; nobody else's batch moves |
| LedgerEffects.CancelEffect | apps/api/app/services/batches_service.py:252-253 | The mark is the old one if there was one, else the present time; nothing else about any batch moves |
| LedgerEffects.CreateBatchEffect | apps/api/app/services/batches_service.py:149-172 | One batch more with its total, its rejected rows as failures and its valid rows to be sent |
| AccountProofs.TransitionIsGood | apps/api/app/services/users_service.py:222-280 | A status change keeps team links, pair uniqueness, sessions of active users only, reserved addresses and the event chain, and signs out every assistant it leaves alone |
| AccountProofs.ChangeRoleIsGood | apps/api/app/services/users_service.py:363-389 | A role change keeps them too: no link survives it, and assistants left alone are signed out |
| AccountProofs.AddLinkIsGood | apps/api/app/services/users_service.py:481-499 | Adding a link keeps them, with at most one active link per pair |
| AccountProofs.EndLinkIsGood | apps/api/app/services/users_service.py:545-547 | Ending a link keeps them and signs out the assistant whose last link it was |
| AccountProofs.ProvisionIsGood | apps/api/app/services/users_service.py:589-620 | Provisioning, of a new row or of a deleted one, keeps them; re-use records the one edge out of deleted |
| AccountProofs.VisitIsGood | apps/api/app/services/sessions.py:75-120 | Authenticating a session keeps them |
| AccountProofs.NeighboursMatch | apps/api/app/services/users_service.py:264-274 | Two consecutive status events of a user match: the later one starts where the earlier one ended |
| AccountProofs.LastEventSetsStatus | apps/api/app/services/users_service.py:246-253 | The last event of a user ends at the user's status |
| AccountProofs.EveryEventIsAnEdge | apps/api/app/services/users_service.py:111-115 | Every recorded edge is in the transition table or is re-provisioning, the only exit from deleted |
| LedgerProofs.CreateConserves | apps/api/app/services/batches_service.py:149-172 | Committing a batch makes its row total the sum of unsent rows and rejections, and moves no other batch's rows |
| LedgerProofs.ProcessConserves | apps/worker/worker/main.py:40-67 | Judging or failing a queued row and deleting its message keeps the row balance |
| LedgerProofs.DrainConserves | apps/worker/worker/main.py:86-104 | Turning a dead letter into a failure and deleting it keeps the balance |
| LedgerProofs.GiveUpConserves | apps/api/app/services/batches_service.py:187-203 | Recording a row the queue refused keeps the balance |
| LedgerProofs.PurgeConserves | apps/api/app/services/aws_clients.py:95-114 | Purging messages of cancelled batches keeps the balance, with purged rows in a place of their own |
| LedgerProofs.PendingIsOutstanding | apps/api/app/services/batches_service.py:220-240 | In balance, the pending number shown is the rows unsent, queued, dead-lettered and purged |
| LedgerProofs.FinishedIsEmpty | apps/api/app/services/users_service.py:209-219 | In balance, a batch with as many outcomes as rows has nothing left anywhere |
| LedgerProofs.ProcessIsSound | apps/worker/worker/main.py:40-67 | With or without its deletion, processing loses no row and judges none of a batch cancelled earlier |
| LedgerProofs.DrainIsSound | apps/worker/worker/main.py:86-104 | With or without its deletion, draining a dead letter loses no row |
| LedgerProofs.CreateBatchIsSound | apps/api/app/services/batches_service.py:149-172 | Every row of a new batch is accounted for from the start |
| LedgerProofs.CancelUnfinishedIsSound | apps/api/app/services/users_service.py:209-219 | The cancellation inside a deletion loses no row and leaves no check later than a cancellation |
| LedgerProofs.PurgeIsSound | apps/api/app/services/aws_clients.py:95-114 | A purge keeps every row of every batch accounted for, and only cancelled batches have purged rows |
| Sessions.ProbesLeaveNoTrace | apps/api/app/services/sessions.py:75-84 | Removing every probe from any sequence of requests changes nothing about the stored session |
| Sessions.TouchIsRecent | apps/api/app/services/sessions.py:110-113 | After a touching request the stored activity lags by less than 60 seconds |
| Sessions.FrequentTouchesKeepAlive | apps/api/app/services/sessions.py:102-113 | Touching requests at most 29 minutes apart all succeed until the cap |
| Sessions.HalfHourGapKills | apps/api/app/services/sessions.py:106-108 | Half an hour without a touching request ends the session for good, probes notwithstanding |
| Sessions.NothingPastTheCap | apps/api/app/services/sessions.py:102-104 | Nothing succeeds at or past the cap, whatever came before |
| Sessions.ExpiredForGood | apps/api/app/services/sessions.py:102-108 | A session that has run out stays as it is and never succeeds again |
| Store.Store.TransitionLocked | apps/api/app/services/users_service.py:222-280 | Refuses exactly a deleted target or one with that status already; otherwise the tables change as a status change says, and on deletion exactly the target's batches short of outcomes are marked |
| Store.Store.DeleteUser | apps/api/app/services/users_service.py:315-360 | Refuses by role on the first read; otherwise the state is the deletion of whatever a run of others left at the lock, exactly the user's batches short of outcomes are marked, and their messages are drained until nothing is handed out or 200 rounds are over |
| Store.Store.DeactivateOrReactivate | apps/api/app/services/users_service.py:283-301 | Refuses anyone but a root admin and oneself; otherwise the status change is decided by the locked status and leaves batches alone |
| Store.Store.ChangeUserRole | apps/api/app/services/users_service.py:363-389 | The target has the new role, its links end and assistants left alone are signed out if it differs; refusals change nothing |
| Store.Store.EndSupervision | apps/api/app/services/users_service.py:524-553 | The new state is the ended link with its sign-out; strangers and missing links get the same refusal |
| Store.Store.LinkSupervisor | apps/api/app/services/users_service.py:502-521 | The pair is linked afterwards, or one of five refusals is given, each exactly in its case |
| Store.Store.CreateUser | apps/api/app/services/users_service.py:631-664 | A free address is invited, re-using the deleted row, with its link in the same commit; each refusal exactly in its case, changing nothing |
| Store.Store.AddTeachingAssistant | apps/api/app/services/users_service.py:667-705 | A new address is invited and linked to the caller, so that the assistant is on an active team; a present active assistant is linked; refuses exactly when the address is known without an active assistant behind it; a deleted row is never re-used |
| Store.Store.CreateSession | apps/api/app/services/sessions.py:29-50 | The state after a sign-in: a session with both limits, and the user's rows past retention gone |
| Store.Store.AuthenticateSession | apps/api/app/services/sessions.py:75-120 | The answer and the stored activity are those of the session rules |
| Store.Store.SignOutEverywhere | apps/api/app/services/sessions.py:139-164 | Every live session of the token's user is revoked, or nothing changes for an unknown or revoked token |
| Store.Store.PurgeExpiredSessions | apps/api/app/services/sessions.py:54-71 | The batched loop ends and removes exactly the rows past retention, and counts them; a batch size of 0 removes none |
| Store.Store.PurgeBatchMessages | apps/api/app/services/aws_clients.py:82-114 | Round by round exactly the given batches' messages among those handed out are removed and counted, until nothing is handed out or 200 rounds are over |
| Store.Store.ProcessMessage | apps/worker/worker/main.py:28-67 | When scoring and commit go through, exactly one failure for a cancelled batch or one check by the row's author; otherwise nothing |
| Store.Store.WorkQueue | apps/worker/worker/main.py:114-142 | Every message handed out, up to the first deletion that raises, meets the fate the outside had for it, and what is left is the run of those work steps |
| Store.Store.DrainDlqOnce | apps/worker/worker/main.py:70-105 | The same for the dead letters: one failure for each that is recorded, gone if its deletion is done |
| Store.Store.PollOnce | apps/worker/worker/main.py:108-147 | A pass over what the queue hands out, then, unless a deletion raised, one over what the dead letters hand out; what is left is the run of both |
| Store.Store.SubmitRows | apps/api/app/services/batches_service.py:149-203 | The batch is there with its total; exactly the rows the queue accepts are queued, and exactly the others and the rejected ones are failures, each once; afterwards nothing is unsent |
| Store.Store.CreateBatch | apps/api/app/services/batches_service.py:133-203 | The file is parsed, the batch is committed with the number of its data rows (1 for a file that fails as a whole), and every row is queued or a failure, as the queue accepts it |
| Store.Store.CancelBatch | apps/api/app/services/batches_service.py:243-258 | Only owner or root admin; the mark is set once and kept, nothing else about any batch moves, and only this batch's messages are drained |
| Store.Store.GetBatchProgress | apps/api/app/services/batches_service.py:214-240 | The numbers shown are how many checks and failures the batch has, and what is left of its total, at least 0 |
| EditDistance.WordEditDistance | apps/data-pipeline/app/human_edit/common.py:57-70 | For lists not both empty the result is the length of some chain of one-word edits over the longer length, and no chain has a smaller one; two empty lists give 0; it is between 0 and 1, and 0 exactly on equal lists |
| EditDistance.DistanceIsLeastEdits | apps/data-pipeline/app/human_edit/common.py:57-70 | Some chain of one-word edits has the distance as its length, and no chain is shorter |
| EditDistance.Triangle | apps/data-pipeline/app/human_edit/common.py:57-70 | The triangle inequality |
| EditDistance.Symmetric | apps/data-pipeline/app/human_edit/common.py:57-70 | The distance is symmetric |
| EditDistance.ZeroOnlyOnEqual | apps/data-pipeline/app/human_edit/common.py:57-70 | The distance is 0 exactly on equal lists |
| EditDistance.Bounds | apps/data-pipeline/app/human_edit/common.py:57-70 | It lies between the difference of the lengths and the longer length |
| EditDistance.OneReadRight | apps/data-pipeline/app/human_edit/common.py:57-70 | The result 1 means nothing in common, over all lists of two lengths, exactly when one length is at most 1 and they are not both 0 |
| EditDistance.FarthestReadRight | apps/data-pipeline/app/human_edit/common.py:57-70 | The distance is the longer length exactly on lists without a common word, for all lists of two lengths, if and only if one length is at most 1 |
| EditDistance.SharedYetFarApart | apps/data-pipeline/app/human_edit/common.py:57-60 | For any two lengths from 2 on, a pair with a common word that is as far apart as can be |
| EditDistance.SwappedWordsAreOneApart | apps/data-pipeline/app/human_edit/common.py:57-60 | Two swapped words score 1 and share both words |
| QuestionGroups.Group | apps/data-pipeline/app/corpus/build.py:145-169 | Fails exactly on twins outside the corpus; otherwise two ids get the same key exactly when a chain of equal texts and twin pairs connects them, and the key is the smallest text of the group |
| QuestionGroups.FindRoot | apps/data-pipeline/app/corpus/build.py:155-158 | The climb terminates at the id's representative |
| QuestionGroups.BuildForest | apps/data-pipeline/app/corpus/build.py:153-165 | The parent map stays a forest and its roots are exactly the groups |
| QuestionGroups.RootsAreGroups | apps/data-pipeline/app/corpus/build.py:163-165 | Same root if and only if connected |
| QuestionGroups.NamesSeparateGroups | apps/data-pipeline/app/corpus/build.py:166-169 | Two groups' smallest texts are equal only if they are one group |
| TextOrder.FirstDifferenceDecides | apps/data-pipeline/app/corpus/build.py:169 | The order by which the smallest text is found: the first difference decides, and a text comes before its continuations |
| Partitions.AssignPartitions | apps/data-pipeline/app/corpus/build.py:172-186 | Refuses unknown twins and fewer than three groups; otherwise connected ids share a partition, test and validation get exactly their rounded shares of the groups as far as these last, train the rest, test is never empty and the others are empty exactly when nothing is left for them |
| Partitions.ShippedSharesFillAll | apps/data-pipeline/app/config.py:17 | With the shipped shares and at least three groups the rounded shares leave something for every partition |
| Partitions.PartsReached | apps/data-pipeline/app/corpus/build.py:181-185 | Which partitions the slices reach, for any shares |
| Partitions.RoundIsNearest | apps/data-pipeline/app/corpus/build.py:181-182 | Rounding is to the nearest integer, halves to the even one |
| Partitions.PortionIsNearest | apps/data-pipeline/app/corpus/build.py:181-182 | A portion is the rounded share of the groups, or one where that is less |
| Apportion.Allocate | ml-training/build_extended_corpus.py:70-85 | Shares sum to min(n, total), each is less than one away from its exact quota, rounded by largest remainder, and at most its group, and no integer allocation with that sum deviates less in total; clamp and refill change nothing |
| Apportion.OffIsDistance | ml-training/build_extended_corpus.py:73 | The deviation compared there is the distance from the exact quota |
| Apportion.LargestRemaindersAreClosest | ml-training/build_extended_corpus.py:71-77 | Rounding by largest remainders minimises the total absolute deviation from the quotas |
| Apportion.NeverAboveGroup | ml-training/build_extended_corpus.py:78 | Rounding by largest remainders never exceeds a group, so the clamp is idle |
| Apportion.Sample | ml-training/build_extended_corpus.py:88-96 | Exactly min(n, pool) different rows of the pool; rows are put into strata by their joined columns, and every stratum gives its proportional quota rounded down or up by largest remainder |
| Apportion.StrataAreColumns | ml-training/build_extended_corpus.py:92 | Rows with equally many columns and no bar in them share a stratum exactly when all columns agree |
| Grouping.GroupPlaces | apps/data-pipeline/app/human_edit/assign.py:29-31 | The dictionary filled row by row has an entry for every label that occurs, holding each of its rows once |
| Grouping.GroupsHoldAll | apps/data-pipeline/app/human_edit/assign.py:29-37 | The groups together hold as many rows as there are |
| Apportion.EvenPartsAddUp | ml-training/build_extended_corpus.py:99-101 | Even parts add up to the total and differ by at most one |
| Splice.BandCandidates | apps/data-pipeline/app/splicer/splice.py:76-98 | Fails exactly when some position set that is tried leaves no counted word; otherwise each pick is a splice with at least one AI and one human sentence, its share is that of the spliced list and lies in its band, and every band a tried position set reaches has one |
| Splice.ShareIsOfTheText | apps/data-pipeline/app/splicer/splice.py:50-54 | The share is the part of the words of the joined text that stand in its AI sentences |
| Splice.WordsOfStretch | apps/data-pipeline/app/harness/generate.py:89-92 | Nothing has no word, a stretch without separators is one |
| Splice.WordsAddUp | apps/data-pipeline/app/harness/generate.py:89-92 | Words add up across a separator |
| Splice.SeparatorsHaveNoWords | apps/data-pipeline/app/harness/generate.py:31 | Spaces, commas, semicolons and angle brackets alone have no word |
| Splice.WordlessSplice | apps/data-pipeline/app/splicer/splice.py:87-90 | The denominator is 0 exactly when the donor part has no word and every human sentence with a word is replaced |
| Splice.FailsExactlyOnWordlessPairs | apps/data-pipeline/app/splicer/splice.py:87-90 | When all sets of k positions are tried, k the larger of 1 and the number of human sentences with a word, the call fails exactly on pairs where k is less than the human sentences, the donor has k sentences, and its first k have no word |
| Splice.CanFailExactlyOnWordlessPairs | apps/data-pipeline/app/splicer/splice.py:87-90 | For every cap, some draws fail exactly on those pairs, unless the cap is 0 |
| Splice.PunctuationFails | apps/data-pipeline/app/splicer/splice.py:87-90 | A pair of punctuation and one word that fails under the shipped cap whatever is drawn |
| Splice.QuickShareIsAiShare | apps/data-pipeline/app/splicer/splice.py:82-90 | The incremental share is the share of the spliced list whenever a word is counted |
| Splice.SpliceAt | apps/data-pipeline/app/splicer/splice.py:38-47 | Chosen positions take donor sentences in order, all others stay |
| Splice.SpliceTakesDonorPrefix | apps/data-pipeline/app/splicer/splice.py:38-41 | The AI sentences, read in order, are the donor's first ones |
| Splice.BandHoldsShare | apps/data-pipeline/app/splicer/splice.py:57-62 | A band found holds the share, and none is found only between bands |
| Splice.AcceptedRangesAreDisjoint | apps/data-pipeline/app/splicer/build_spliced.py:62-67 | Ranges that pass the neighbour check are pairwise disjoint, so no share lies in two |
| Splice.PositionSets | apps/data-pipeline/app/splicer/splice.py:65-73 | Exactly min(C(n, k), cap) different valid sets, all of them when they fit |
| Splice.CombinationsComplete | apps/data-pipeline/app/splicer/splice.py:68-69 | Every k-element set of positions is among the combinations |
| Splice.CombinationsCount | apps/data-pipeline/app/splicer/splice.py:68-69 | There are C(n, k) of them |
| EditorDeal.PickForEditors | apps/data-pipeline/app/human_edit/assign.py:22-49 | Refuses exactly on repeated editors or too few answers; otherwise everyone gets the agreed number, nobody shares one, editors' counts in a group differ by at most one, and so do groups' totals unless the smaller is dealt out |
| EditorDeal.PickRoundRobin | apps/data-pipeline/app/human_edit/assign.py:39-43 | Picks min(needed, available) different answers, balanced over the groups up to exhaustion |
| EditorDeal.BuildQueues | apps/data-pipeline/app/human_edit/assign.py:29-37 | One queue for each (generator, tier) that occurs, holding each of its answers once |
| EditorDeal.RunsAreShared | apps/data-pipeline/app/human_edit/assign.py:46-49 | Any run of consecutive places is shared by two strides with a difference of at most one |
| EditorDeal.GroupStandsTogether | apps/data-pipeline/app/human_edit/assign.py:46-48 | After the stable sort a group's picks stand in one run |
| EditorDeal.DealtOnce | apps/data-pipeline/app/human_edit/assign.py:49 | Strides never meet: the same answer at two places means one place |
| RocThreshold.ThresholdMeetsBudget | ml-training/metrics.py:62-83 | The realised rate meets the budget exactly when negatives exist and the budget is not negative |
| RocThreshold.RatesAreShares | ml-training/metrics.py:126-151 | Recall and false-positive rate are the flagged parts of the samples with either label, and undefined exactly without such samples |
| RocThreshold.RecallIsOracle | ml-training/metrics.py:86-95 | The recall at the threshold equals the oracle exactly when positives exist or some vertex is usable |
| RocThreshold.LargerBudgetFindsMore | ml-training/metrics.py:62-95 | A larger budget never lowers the recall and never raises the threshold |
| RocThreshold.FlagsNothingExactly | ml-training/metrics.py:74-81 | Nothing is flagged exactly when no vertex is usable or the infinite one is chosen |
| RocThreshold.NoThresholdBeatsTheOracle | ml-training/metrics.py:86-91 | On a whole sweep no threshold whatever within the budget has a higher recall |
| RocThreshold.DroppingIsHarmlessExactly | ml-training/metrics.py:86-95 | Dropping vertices changes the oracle of no budget exactly when every vertex of the whole sweep has a kept one with no higher false-positive rate and no lower recall |
| RocThreshold.DroppedVertexCostsRecall | ml-training/metrics.py:86-95 | Three tied scores: without the middle vertex the oracle under a budget of 0.7 is a third, with it two thirds |
| RocThreshold.OracleSurvivesDropping | ml-training/metrics.py:86-95 | For one budget, the oracle with vertices dropped equals that of the whole sweep exactly when a kept vertex in budget catches as many positives as any score in budget does |
| RocThreshold.LowestOnlyIfItCatchesMore | ml-training/metrics.py:62-72 | The choice is the last vertex in budget exactly when that one catches a positive its predecessor misses |
| RocThreshold.ThresholdNeedNotBeLowest | ml-training/metrics.py:62-66 | Two samples for which a lower threshold is within the budget too |
| Keyset.ListChecks | apps/api/app/services/checks_service.py:133-184 | An unknown cursor is refused, whoever may see its row; a page is the newest shown rows past the anchor, and has a cursor exactly when more follow |
| Keyset.ListHistory | apps/web/src/api/checks.ts:180-199 | The loop ends with rows later first and, at one time, larger id first, each once, and every shown row of the first table, whatever is stored meanwhile; with newer rows only, exactly the first table's shown rows in order |
| Keyset.WhoSeesWhat | apps/api/app/services/checks_service.py:152-165 | A root admin sees every row that passes the filters, of one author if asked; anyone else exactly their own since they were re-provisioned, whatever author is asked for |
| Keyset.OneOrder | apps/api/app/services/checks_service.py:142-144 | Only one descending list holds given rows |
| BatchParsing.ParseAndValidate | apps/api/app/services/batches_service.py:51-105 | No header or exactly the required fields without a column are the only failure; otherwise each data row is in exactly one of the lists: its trimmed cells, acceptable, or its number, its first fault and its trimmed reference |
| BatchCells.ReadsIsFields | apps/api/app/services/batches_service.py:85-103 | The code's row is the only one that holds, for each of the three fields, the trimmed cell of the field's column, empty where the line is short or no title stands for the field |
| BatchCells.OnlyColumn | apps/api/app/services/batches_service.py:67-68 | With different titles and one that stands for a field, its column is the field's |
| BatchCells.SomeColumn | apps/api/app/services/batches_service.py:67-85 | When titles repeat or several stand for a field: the title whose first appearance is last, and of that title the last column |
| BatchParsing.DataRowsAreLines | apps/api/app/services/batches_service.py:75 | The data rows are the lines that are not blank, each once and in order |
| BatchParsing.ValidateRow | apps/api/app/services/batches_service.py:26-48 | No reason is given exactly for rows within all limits, and a reason is the first fault in the order reference, answer, question |
| BatchParsing.RowTotalIsDataRows | apps/api/app/services/batches_service.py:149-157 | Rows and failures together are the data rows, and at most 500 are screened |
| BatchParsing.OutcomesAddUp | apps/api/app/services/batches_service.py:149-157 | For any file the two lists add up to the total the batch is committed with |
| BatchParsing.OutcomeIsSettled | apps/api/app/services/batches_service.py:80-103 | A data row is accepted if and only if it is within the first 500 and its trimmed cells are acceptable |
| BatchCells.StripTrims | apps/api/app/services/batches_service.py:31-33 | Stripping takes away spaces at both ends and nothing else |

## Left out

- Auth0, S3, SQS, HTTP and SQL: only their effects on the stored state and the queue are modelled. Whether a call succeeds is an argument; a send is either accepted or refused, so a send that times out but was accepted is not modelled.
- The queue and the dead-letter queue are sets of rows: how often a message has been received, visibility timeouts and arrival order are not kept, and a queued message may become a dead letter at any time.
- Clocks: each commit has one reading, and the failures a submission records in one commit get one reading each. Readings strictly increase.
- Interleavings inside one call, other than the row lock of a status change and the gap between a batch's commit and its sending.
- Credential ids, display names, first sign-in, invitations sent again, role events and the user directory's listing.
- Cursors are the ids they encode; a text that does not decode is refused like an unknown id.
- Random draws are arbitrary choices; ids and tokens are fresh parameters. Only fresh tokens are assumed, so hashing is not modelled.
- Floating point: shares, quotas, rates and thresholds are exact. Rounding of the partition shares is to the nearest integer, ties to even.
- CSV lexing, text cleaning, sentence segmentation, word tokens and the sweep of distinct scores: rows, sentences, tokens and vertices are given. Which vertices the library drops is left open.
- Detector scores and verdicts: a check is recorded with its author, batch, row and time only; `_decide` has one branch.
- `cap_train_humans`, `keep_share` and the corpus and splice checks: plain filters over the partitions proved here.
- `toHistory` groups the rows that `Keyset.ListHistory` returns for display.
- Operating-point figures other than recall and false-positive rate, calibration, bootstrap and the F1 search.
- EditorDeal.BuildQueues: sorting groups and answers before shuffling leaves no trace in an arbitrary shuffle and is not modelled.
- Store.Store.OthersRun: stands for whatever other calls do before the lock is taken; its callers know only that it is a run.
- The purged rows of cancelled batches are kept in a set of their own, which the services do not store.
- While history pages are read, the reader's own account does not change.
