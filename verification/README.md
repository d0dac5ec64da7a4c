# Agent-to-agent commerce: a verified model

An autonomous agent posts a job with a budget in USDC, another agent negotiates a price for it, both sign, the
price is held in escrow on Base, the work (training a fighter) is done, delivered, measured again by an independent
worker, and the measurement decides who is paid. This project models the code that carries that story and proves
what it promises. Everything is in Dafny; `dafny verify dfyconfig.toml` checks the whole of it.

| part | modules |
|---|---|
| negotiation, its hash chain, the provider's bargaining policy, the service over the stored thread | `Negotiation`, `HashChain`, `ProviderPolicy`, `NegotiationService` |
| on-chain identity registration: concurrent callers, crashes, a clock, one row and one chain | `IdentityRow`, `Registration`, `RegistrationProgress`, `RegistrationFaults`, `ClaimDiscipline` |
| canonical documents, their JSON text, the requirement document and its hash | `Canonical`, `JsonNumber`, `Json`, `Requirements` |
| amounts as text, `BigInt(text)`, UTF-8, the attribution suffix on calldata | `Decimal`, `Usdc`, `Utf8`, `BuilderCode` |
| posting, funding, execution and settlement over a row and a chain; the settlement loop; the training queue | `JobRow`, `Settlement`, `SettlementProgress`, `SettlementFaults`, `SettlementLoop`, `TrainingQueue` |
| the battle simulator, the evaluation harness, traits and scores | `Battle`, `Rollout`, `Traits` |
| the trainer's arithmetic | `Gae`, `VectorEnv`, `Curriculum` |
| constraints read out of a prompt | `Constraints` |

`Prelude` and `Arithmetic` hold stock types and two counting functions.

## How it is modelled

- A record the source updates in place is a class (`NegotiationService.Thread`, `IdentityRow.AgentBaseIdentity`,
  `JobRow.A2AJob`, `TrainingQueue.Queue`, `SettlementLoop.Loop`, `BuilderCode.Configured`, `Battle.BattleEnv`,
  `VectorEnv.SyncVectorEnv`). Each of its methods equates the new state with a function of the old one, and the
  theorems are about those functions.
- A protocol with concurrency or crashes (`Registration`, `Settlement`, `TrainingQueue`) is a state machine with one
  step per await. A run is any finite interleaving of any number of callers; any caller may throw, stop or crash at
  any point, and any transaction may land without its sender hearing of it. Assumptions about the world are named
  predicates on steps. Each theorem says which it needs, and for each there is a run that goes wrong without it.
  Beside what no run can do stands what an undisturbed call achieves from every state in which it may begin
  (`SettlementProgress`, `RegistrationProgress`): a job is posted, funded, worked on, delivered, measured and paid or
  refunded, an identity is minted and bound.
- A hash is an arbitrary function. Nothing is assumed of it: where the source relies on collision resistance the
  theorem says "or here is the collision", and `HashChain.TranscriptHashDecides` adds the reading under an ideal hash.
- A price is the text the source carries, beside the number `BigInt` reads in it.
- JSON is the full grammar of sections 2 to 7 of RFC 8259, on the reading side as on the printing side. A number
  literal is read at its exact value and then rounded by an engine of which three things are assumed
  (`JsonNumber.Conforms`): rounding twice is rounding once, the safe integers are doubles, and what is printed for an
  integral double is a literal that rounds back to it. Where rounding merges two literals, where it overflows, and from
  which size on an exponent is printed are left open, so the theorems hold of JavaScript's doubles and of exact numbers
  (`JsonNumber.ExactConforms`) alike.
- The escrow contract is taken as its callers see it: a job is posted, may be cancelled until it is funded, takes a
  deliverable while ESCROWED or EXECUTING and a verdict only while DELIVERED, and may be refunded by a timeout at any
  time between funding and verdict. A funding call on a job past POSTED is answered as funded already.
- Python and PyTorch floats are reals; rounding is modelled only where the source rounds (scores, fractions of a
  price).

## What the proofs found

- The PROVIDER opening move that discovery plays on an empty thread is always refused: the first turn is the
  CREATOR's (`ProviderPolicy.OpeningMoveIsRejected`).
- The policy's move is accepted exactly under `ProviderPolicy.MoveFits`. It fails in two ways: a creator who writes
  its price in a padded spelling ("0100") makes the ACCEPT, printed as "100", differ as text
  (`PaddedPriceCannotBeAccepted`), and an opening fraction above one can put the first counter over the ceiling
  (`OvershootingOpening`). The "Converged" branch is dead (`NeverConverges`).
- At most one identity is minted under four assumptions, and without any one of them two are
  (`RegistrationFaults`).
- A document field named `__proto__` leaves no trace in the canonical form, so it is not bound by the hash
  (`Canonical.ProtoFieldIsLost`). A value's form keeps its whole document if and only if no defined field of it has
  that name at any depth (`Canonical.FormKeepsWholeExactly`).
- `formatUsdc` of a negative amount is text that `parseUsdc` refuses; the two undo each other exactly on the
  amounts from zero up (`Usdc.RoundTripsExactly`).
- The verifier's own commit of a deliverable is unreachable (`Settlement.FallbackUnreachable`).
- Six writes of a job's status look at nothing: the three of confirmAndPost, openNegotiation's, the funding route's
  and startExecution's. Exactly these can take a job out of SETTLED or REFUNDED (`Settlement.TerminalLostExactly`), and
  each of them can meet a settled job (`SettlementFaults.EveryEarlyWriteCanReopen`). For the funding route not even a
  race is needed: any funding call on a finished job is answered as funded already and writes ESCROWED
  (`SettlementFaults.RepeatedFundingReopens`), which leaves a row no service takes up again
  (`JobRow.A2AJob.RecordFunding`).
- A verification worker that outlives its claim can attach its snapshot to a settled job, whose row then names a
  measurement that misses the target (`SettlementFaults.LateSnapshotBeliesSettled`). A finished row bears its verdict
  out exactly when the snapshot attached last and the one that was judged have one outcome
  (`Settlement.FinishedRowAgreesExactly`).
- Without a provider clause in the prompt, each constraint after the first is warned about as ignored and filed as a
  provider requirement all the same (`Constraints.FiledTwiceExactly`). The comments read as if only one happened;
  the model follows the code.
- The seeds of a vector env never repeat within it, but the trainer builds a new one each iteration, 1000 seeds on.
  Two iterations share a seed exactly under `VectorEnv.Collide`, for instance once an iteration has finished more than
  1000 episodes (`VectorEnv.SeedsRepeatExactly`).
- The simulator's comment calls difficulty a number from 0 to 1. The evaluation ladder goes to 2, and hit points stay
  in range for every difficulty that is not negative, and for no other (`Battle.RangeKeptExactly`).

## Model

| member | source | states |
|---|---|---|
| Negotiation.ReadOfShow | packages/a2a-protocol/src/negotiation.ts:209-211 | A price the code prints reads back as the same text and number |
| Negotiation.VerifyTranscript | packages/a2a-protocol/src/negotiation.ts:68-103 | The loop's verdict is exactly "numbered, linked and unaltered"; it lists every fault in order and returns the recomputed hash, never a stored one |
| Negotiation.NoIssuesMeansIntact | packages/a2a-protocol/src/negotiation.ts:76-102 | No issue is reported if and only if every message is intact |
| Negotiation.IssuesNameFaults | packages/a2a-protocol/src/negotiation.ts:76-102 | A fault is reported under a number if and only if a message of that number has it: a wrong place, a wrong predecessor, or an altered content |
| Negotiation.PlayedExtends | packages/a2a-protocol/src/negotiation.ts:169-230 | One accepted, hashed message extends a reachable transcript by one |
| Negotiation.RolesAlternate | packages/a2a-protocol/src/negotiation.ts:106-152 | Turns alternate from CREATOR at every position |
| Negotiation.ReachableIsWellFormed | packages/a2a-protocol/src/negotiation.ts:169-258 | Every reachable transcript verifies and is well formed: PROPOSE only first, ACCEPT and DECLINE only last, prices in budget, ACCEPT repeats the other party's price, at most 20 messages |
| Negotiation.ReachableExactly | packages/a2a-protocol/src/negotiation.ts:106-230 | The validator lets grow exactly the well-formed, intact, encodable transcripts whose messages came in time: an if and only if |
| Negotiation.ClosedNeverReopens | packages/a2a-protocol/src/negotiation.ts:106-175 | Under a monotone clock a closed negotiation never gains a message and never changes state |
| Negotiation.OutcomeIsLastWord | packages/a2a-protocol/src/negotiation.ts:106-152 | An ACCEPT by either party agrees on the price the other named before it, a DECLINE ends without one, anything else waits for the party that did not speak last until that message runs out |
| Negotiation.RefusalIsTrue | packages/a2a-protocol/src/negotiation.ts:169-230 | Whichever refusal is given, the offer has that very fault, told in numbers and literals; that there is nothing to accept is never given |
| HashChain.TranscriptBinding | packages/a2a-protocol/src/negotiation.ts:68-103 | Two intact transcripts with one hash hold equal offers in equal order, or exhibit a collision or a preimage of the zero hash |
| HashChain.TranscriptHashDecides | packages/a2a-protocol/src/negotiation.ts:68-103 | Under an ideal hash, equal transcript hashes if and only if equal offers |
| HashChain.EditIsCaught | packages/a2a-protocol/src/negotiation.ts:61-67 | Editing a message together with its stored digest is caught, or moves the transcript hash, unless it is a collision |
| HashChain.AgreementNamesTranscript | services/a2a-marketplace-service/src/negotiation.service.ts:332-359 | A signed agreement names the closing ACCEPT's price and the hash of the whole transcript |
| HashChain.AgreementNamesParties | services/a2a-marketplace-service/src/negotiation.service.ts:349-359 | Field by field: creator, provider, wallet, job, requirements hash and window each stand in their own place, and it runs out a day after it is signed |
| HashChain.SignsExactly | services/a2a-marketplace-service/src/negotiation.service.ts:337-347 | An agreement comes out of every intact transcript that closes with an ACCEPT, and of no other |
| HashChain.AgreementBinding | services/a2a-marketplace-service/src/negotiation.service.ts:332-370 | Two agreements with one digest fix the same terms, the same price and the same negotiation, or exhibit a collision |
| ProviderPolicy.FindLastOwnAsk | packages/a2a-protocol/src/negotiation.ts:343-349 | The backward scan returns the price of the latest PROVIDER message that is no DECLINE, and none only if there is none |
| ProviderPolicy.PolicyAnswers | packages/a2a-protocol/src/negotiation.ts:286-341 | Three answers: DECLINE if and only if the floor lies above the ceiling; else ACCEPT of exactly the offered number if and only if it meets the floor; else COUNTER at floor + g - g*r/10000 over its last price or its opening ask |
| ProviderPolicy.NextAskBounds | packages/a2a-protocol/src/negotiation.ts:326-329 | The next ask never falls below the floor and never rises |
| ProviderPolicy.NeverConverges | packages/a2a-protocol/src/negotiation.ts:331-334 | The "Converged" branch is unreachable |
| ProviderPolicy.OpeningMoveIsRejected | services/a2a-marketplace-service/src/discovery.service.ts:172-177 | A PROVIDER opening move on an empty transcript is always refused |
| ProviderPolicy.UnitOpeningStaysUnderCeiling | packages/a2a-protocol/src/negotiation.ts:295-309 | With an opening fraction in [0,1] the first counter stays within the ceiling |
| ProviderPolicy.PolicyDecides | packages/a2a-protocol/src/negotiation.ts:286-341 | In any reachable transcript, on its turn, the policy reaches a decision instead of an exception |
| ProviderPolicy.PolicyMoveAccepted | packages/a2a-protocol/src/negotiation.ts:169-230 | The validator accepts the policy's move on its turn if and only if MoveFits holds, a condition on the transcript and the policy that can be checked before the move |
| ProviderPolicy.PaddedPriceCannotBeAccepted | packages/a2a-protocol/src/negotiation.ts:314-321 | Concrete failing family: a price spelt with a leading zero is answered with an ACCEPT that is refused |
| ProviderPolicy.OvershootingOpening | packages/a2a-protocol/src/negotiation.ts:295-309 | Concrete failing input: an opening fraction of two makes the first counter overshoot the ceiling |
| ProviderPolicy.BargainIsSafe | packages/a2a-protocol/src/negotiation.ts:286-341 | Against every creator: any agreed price is at least the floor and within the budget |
| ProviderPolicy.LowOffersAreCountered | packages/a2a-protocol/src/negotiation.ts:286-341 | In every run each message of the policy is told by the creator offer before it, so an offer below the floor is countered, never declined |
| ProviderPolicy.CounterSequence | packages/a2a-protocol/src/negotiation.ts:324-340 | In a run the k-th counter stands exactly k+1 rounded concessions above the floor |
| ProviderPolicy.CountersNeverRise | packages/a2a-protocol/src/negotiation.ts:324-355 | Successive asks of a run follow the recurrence g' = g - floor(g*r/10000), never rise and never pass the floor |
| ProviderPolicy.ConcessionStalls | packages/a2a-protocol/src/negotiation.ts:352-355 | The gap shrinks if and only if g*r >= 10000 |
| ProviderPolicy.StalledForever | packages/a2a-protocol/src/negotiation.ts:324-329 | A stalled gap stays as it is for any number of counters |
| ProviderPolicy.DefaultRateHalves | packages/a2a-protocol/src/negotiation.ts:324-329 | At a rate of one half k concessions leave exactly the opening gap over 2^k, rounded up |
| ProviderPolicy.DefaultRateCounters | packages/a2a-protocol/src/negotiation.ts:296-329 | In every run at the default rate the k-th counter asks exactly the floor and the opening gap over 2^(k+1), rounded up |
| NegotiationService.Thread.AppendOffer | services/a2a-marketplace-service/src/negotiation.service.ts:191-272 | Succeeds exactly when the stored chain verifies, the validator accepts and the encoder can hash; then the row is the derived view of the longer transcript; a failure changes nothing |
| NegotiationService.Thread.CreatorOffer | services/a2a-marketplace-service/src/negotiation.service.ts:191-272 | A creator's message keeps the run a run of the provider's policy |
| NegotiationService.Thread.ProviderRespond | services/a2a-marketplace-service/src/negotiation.service.ts:280-319 | A policy whose floor lies above the ceiling declines; a creator offer that meets the floor is accepted at its price; one below it is countered at floor + g - g*r/10000; the message is appended under the provider's name exactly when it fits |
| NegotiationService.Thread.SignAgreement | services/a2a-marketplace-service/src/negotiation.service.ts:332-389 | Field by field, the agreement names creator, provider, wallet, job, requirements, window and agreed price, each in its place, and runs out a day later; its digest is stored if and only if the transcript is agreed and both signers signed that digest |
| IdentityRow.AgentBaseIdentity.ClaimRegistration | services/base-chain-service/src/agent-identity.service.ts:329-346 | The conditional update matches exactly the claimable rows, and a claim shuts others out until its time is over |
| IdentityRow.AgentBaseIdentity.RecordHash | services/base-chain-service/src/agent-identity.service.ts:223-226 | The claim stands exactly as it stood, and a caller that finds the row unregistered now looks this transaction up instead of sending another |
| IdentityRow.AgentBaseIdentity.RecordRegistration | services/base-chain-service/src/agent-identity.service.ts:242-251 | Identity, hash and status are recorded, nobody can claim again and the next caller binds the wallet |
| IdentityRow.AgentBaseIdentity.RecordLink | services/base-chain-service/src/agent-identity.service.ts:305-308 | Whatever the row was: no caller has anything left to do, none can ever claim, and identity and hash stay |
| IdentityRow.AgentBaseIdentity.RecordFailure | services/base-chain-service/src/agent-identity.service.ts:504-513 | The claim is released, at once and for everyone, unless there is an identity; hash and identity stay for the resume path |
| Registration.InvKept | services/base-chain-service/src/agent-identity.service.ts:442-502 | Every step of every caller and of the chain keeps the protocol's invariant |
| Registration.AtMostOneMint | services/base-chain-service/src/agent-identity.service.ts:205-254 | Under the four named assumptions, however callers interleave, retry, crash or fail, at most one register() transaction is minted or could still be, and the recorded identity is its |
| RegistrationProgress.FreshPass | services/base-chain-service/src/agent-identity.service.ts:442-502 | Progress, from any run: one undisturbed call over an agent without identity and transaction sends one transaction, records the identity it mints and links the wallet |
| RegistrationProgress.LostReceiptPass | services/base-chain-service/src/agent-identity.service.ts:448-466 | One undisturbed call over a row that names a mined transaction records that identity and links the wallet, sending nothing |
| RegistrationProgress.UnboundPass | services/base-chain-service/src/agent-identity.service.ts:455-466 | One undisturbed call over an identity without a linked wallet links it |
| RegistrationProgress.FailedPass | services/base-chain-service/src/agent-identity.service.ts:492-513 | An exception between claim and transaction leaves the row FAILED and unlocked, with nothing sent, and open to every later claim |
| RegistrationProgress.BindingFailedPass | services/base-chain-service/src/agent-identity.service.ts:455-513 | An exception while the wallet is bound, on either path, keeps the identity, leaves the row REGISTERED and unlocked, and a later call binds the wallet |
| RegistrationFaults.SplitBroadcastMintsTwice | services/base-chain-service/src/agent-identity.service.ts:217-226 | Without an atomic broadcast-and-record a run mints two identities |
| RegistrationFaults.VagueLookupMintsTwice | services/base-chain-service/src/agent-identity.service.ts:405-409 | A pending transaction taken for a missing one: a run mints two |
| RegistrationFaults.SlowHolderMintsTwice | services/base-chain-service/src/agent-identity.service.ts:337-340 | A claim retaken from a holder that is slow, not dead: a run mints two |
| RegistrationFaults.StaleReadMintsTwice | services/base-chain-service/src/agent-identity.service.ts:443-468 | A claim on a row read before the latest hash was written: a run mints two |
| ClaimDiscipline.AlwaysDisciplined | services/base-chain-service/src/agent-identity.service.ts:305-346 | With no assumption at all: a linked wallet always has an identity, and the lock is the open claim's |
| ClaimDiscipline.ClaimsAreSeparated | services/base-chain-service/src/agent-identity.service.ts:314-346 | Two successful claims are separated by a recorded failure or by more than the claim's lifetime |
| ClaimDiscipline.BroadcastsNeverOutnumberClaims | services/base-chain-service/src/agent-identity.service.ts:468-486 | Transactions sent never outnumber successful claims |
| ClaimDiscipline.NoClaimAfterIdentity | services/base-chain-service/src/agent-identity.service.ts:332-346 | Once an identity is recorded it stays and no claim succeeds again |
| ClaimDiscipline.LostReceiptIsAdopted | services/base-chain-service/src/agent-identity.service.ts:405-453 | A mined registration whose receipt was lost is adopted from its recorded hash, not minted again |
| Canonical.KeyTotal | packages/a2a-protocol/src/canonical.ts:70-76 | The printing order of keys, array indices first and by number, is a strict total order |
| Canonical.KeyTransitive | packages/a2a-protocol/src/canonical.ts:70-76 | and transitive |
| Canonical.LexLessExactly | packages/a2a-protocol/src/canonical.ts:70 | Its direction: the first character that differs decides, the smaller first, and a prefix goes before its extensions |
| Canonical.IndicesByNumber | packages/a2a-protocol/src/canonical.ts:70-76 | Array indices come first, from the smallest number up: 2 before 10, and 10 before any name |
| Canonical.NamesByText | packages/a2a-protocol/src/canonical.ts:70-76 | Numbers from 2^32 - 1 on are names, and names stand in text order |
| Canonical.PutInserts | packages/a2a-protocol/src/canonical.ts:69-75 | Assigning keys in plain text order to a fresh object lists them in printing order |
| Canonical.Canonicalize | packages/a2a-protocol/src/canonical.ts:45-80 | The recursion with its sorted-key loop computes the normal form, or fails where it is undefined |
| Canonical.CanonicalizeFields | packages/a2a-protocol/src/canonical.ts:67-76 | The loop over the sorted keys builds the fields sorted, undefined ones omitted |
| Canonical.RejectsExactly | packages/a2a-protocol/src/canonical.ts:45-79 | A value is refused if and only if something unacceptable (a non-integer, a non-finite number, a stray undefined) sits somewhere in its tree |
| Canonical.ResultIsCanonical | packages/a2a-protocol/src/canonical.ts:45-80 | Results are sorted at every depth |
| Canonical.CanonicalIsFixpoint | packages/a2a-protocol/src/canonical.ts:45-80 | A canonical value is its own normal form |
| Canonical.Idempotent | packages/a2a-protocol/src/canonical.ts:45-80 | canonicalize is idempotent |
| Canonical.MeaningPreserved | packages/a2a-protocol/src/canonical.ts:45-80 | The normal form denotes the document its value denotes |
| Canonical.CanonicalIsUnique | packages/a2a-protocol/src/canonical.ts:45-80 | A canonical value is determined by the document it denotes |
| Canonical.SameFormIffSameDocument | packages/a2a-protocol/src/canonical.ts:10-23 | Two accepted values have one normal form if and only if they denote one document |
| Canonical.SameFieldsSameForm | packages/a2a-protocol/src/canonical.ts:12-23 | Key order and undefined fields never reach the normal form, errors included |
| Canonical.ArrayOrderMatters | packages/a2a-protocol/src/canonical.ts:15 | Swapping two array items changes the form unless they are the same document |
| Canonical.ProtoFieldIsLost | packages/a2a-protocol/src/canonical.ts:68-75 | The exception: a field named `__proto__` leaves no trace |
| Canonical.PlainExactly | packages/a2a-protocol/src/canonical.ts:68-75 | Against a reading that keeps every field: nothing of a value is lost if and only if no defined field at any depth is named `__proto__` |
| Canonical.FormKeepsWholeExactly | packages/a2a-protocol/src/canonical.ts:68-75 | The normal form denotes the whole document under exactly that condition |
| Canonical.PlainFormsDecide | packages/a2a-protocol/src/canonical.ts:10-23 | On values without such a field, equal forms if and only if equal whole documents |
| Json.ReadPrinted | packages/a2a-protocol/src/canonical.ts:83-89 | Reading a printed canonical value gives it back, whatever text follows and however the engine rounds and prints |
| Json.ReadEscaped | packages/a2a-protocol/src/canonical.ts:83-89 | Every string survives escaping and reading, control characters included |
| Json.RoundTrip | packages/a2a-protocol/src/canonical.ts:83-89 | JSON.parse undoes JSON.stringify on canonical values made of doubles |
| Json.PrintInjective | packages/a2a-protocol/src/canonical.ts:83-89 | Two canonical values never print alike |
| Json.TextDecidesDocument | packages/a2a-protocol/src/canonical.ts:87-99 | canonicalString gives one text if and only if the documents are one |
| Json.TextIsStable | packages/a2a-protocol/src/canonical.ts:1-9 | Anyone who parses the stored text and canonicalizes again gets the same text |
| Json.ParsedGenuine | packages/a2a-protocol/src/requirements.ts:171-176 | Whatever is parsed is a proper value: no object lists a key twice, and every number is a double |
| Json.LaterMemberStands | packages/a2a-protocol/src/requirements.ts:171-176 | Of two members with one key the later stands and the earlier leaves no trace |
| Json.ReadCoded | packages/a2a-protocol/src/requirements.ts:171-176 | A character escaped by its code reads as itself, beyond 0xFFFF as a pair of surrogates |
| Json.OuterSpaceIgnored | packages/a2a-protocol/src/requirements.ts:171-176 | White space on either side of any text, good or bad, changes nothing for its reader |
| Json.SpaceExactly | packages/a2a-protocol/src/requirements.ts:171-176 | White space is space, tab, line feed and carriage return, and nothing else |
| JsonNumber.ReadFraction | packages/a2a-protocol/src/requirements.ts:171-176 | A fraction is read as the double its exact value rounds to |
| JsonNumber.ReadScientific | packages/a2a-protocol/src/requirements.ts:171-176 | So is a number in scientific notation, an infinity if it overflows |
| JsonNumber.NumberAppended | packages/a2a-protocol/src/requirements.ts:171-176 | Reading a number, or failing to, is not disturbed by what is set off behind it |
| JsonNumber.ExactConforms | packages/a2a-protocol/src/canonical.ts:83-89 | The assumptions on an engine's numbers can be met: exact numbers printed as decimals meet them |
| Requirements.BuiltBudgetIsExact | packages/a2a-protocol/src/requirements.ts:99-122 | The stored budget texts are the amounts written, exact to the base unit |
| Requirements.BuiltIsSettleable | packages/a2a-protocol/src/requirements.ts:77-128 | A built document has a proper positive range, a bounded window and trimmed non-empty names |
| Requirements.RefusalIsTrue | packages/a2a-protocol/src/requirements.ts:83-116 | A refusal names a defect the input really has, each bound as a number |
| Requirements.UnmeasuredSpellings | packages/a2a-protocol/src/requirements.ts:131-141 | The two spellings of "not required" build one document |
| Requirements.DocumentIsHashable | packages/a2a-protocol/src/requirements.ts:150-158 | Hashing a built document never throws |
| Requirements.DocumentDetermined | packages/a2a-protocol/src/requirements.ts:150-158 | Different documents stay different on the way to the hash; what stands under which key is the next row's |
| Requirements.DocumentSays | packages/a2a-protocol/src/requirements.ts:118-158 | The hashed object has exactly the nine keys; each carries its own field of the document, `minBaseUnits` the minimum and `maxBaseUnits` the maximum, each predicate its metric, operator and value, and `requireMeasured` true exactly when required |
| Requirements.BuiltIsHeld | packages/a2a-protocol/src/requirements.ts:99-141 | A document built from doubles holds only doubles, so the two theorems below speak of every document that is built |
| Requirements.HashNamesDocument | packages/a2a-protocol/src/requirements.ts:150-153 | One committed hash names one job document, or exhibits a collision |
| Requirements.StoredTextVerifies | packages/a2a-protocol/src/requirements.ts:155-191 | The stored canonical text passes the third party's check |
| Requirements.StoredTextSays | packages/a2a-protocol/src/requirements.ts:155-158 | Whoever parses the stored text reads that same job in it, key by key |
| Requirements.VerifyAcceptsExactly | packages/a2a-protocol/src/requirements.ts:160-191 | For every stored text and every way of rounding: it passes if and only if it parses, its numbers rounded, to an acceptable value that denotes the committed document, or exhibits a collision |
| Requirements.LowerIgnoresCase | packages/a2a-protocol/src/requirements.ts:185 | Two hash texts compare equal if and only if they differ in nothing but the case of letters |
| Decimal.ValueOfShow | packages/a2a-protocol/src/canonical.ts:125-134 | Printing a natural number and reading it back is the identity |
| Decimal.ShowOfValue | packages/a2a-protocol/src/canonical.ts:125-134 | Reading then printing is the identity exactly on texts without a spare leading zero |
| Decimal.BigIntOfShowInt | packages/a2a-protocol/src/negotiation.ts:209-211 | BigInt(n.toString()) is n, for every integer |
| Decimal.PrefixSelectsRadix | packages/a2a-protocol/src/negotiation.ts:209-211 | `BigInt` of text with a radix prefix, in either case, reads the rest in that radix |
| Usdc.FormatThenParse | packages/a2a-protocol/src/canonical.ts:112-135 | parseUsdc(formatUsdc(n)) is n for every natural n |
| Usdc.RoundTripsExactly | packages/a2a-protocol/src/canonical.ts:112-135 | and for no other integer |
| Usdc.ParseThenFormat | packages/a2a-protocol/src/canonical.ts:112-135 | formatUsdc(parseUsdc(s)) is s trimmed, without spare zeros at either end |
| Usdc.SameAmountSameText | packages/a2a-protocol/src/canonical.ts:112-135 | Two texts are one amount if and only if they normalise alike |
| Usdc.ParseIsExact | packages/a2a-protocol/src/canonical.ts:106-126 | The base units are the written decimal times a million, with no rounding |
| Usdc.ParseKeepsOrder | packages/a2a-protocol/src/canonical.ts:106-126 | Parsing preserves numeric order in both directions |
| Usdc.RefusedExactly | packages/a2a-protocol/src/canonical.ts:112-126 | Which texts are refused, and as what: anything but digits with perhaps a point and digits is no amount, more than six digits behind the point are too many, everything else is read |
| Utf8.DecodeEncode | packages/a2a-protocol/src/builderCode.ts:81 | Decoding encoded text gives it back |
| Utf8.EncodeDecode | packages/a2a-protocol/src/builderCode.ts:126 | Strictness: bytes that decode are the encoding of what they decode to |
| BuilderCode.SplitJoin | packages/a2a-protocol/src/builderCode.ts:73-81 | Splitting undoes joining when no code holds a comma |
| BuilderCode.RefusedExactly | packages/a2a-protocol/src/builderCode.ts:69-84 | A list is refused if and only if it could not be read back: a comma would split a code or the length would not fit |
| BuilderCode.SuffixLayout | packages/a2a-protocol/src/builderCode.ts:81-94 | Byte by byte: the joined codes, their length, schema zero, the marker, and nothing more |
| BuilderCode.DecodeBytesExactly | packages/a2a-protocol/src/builderCode.ts:102-132 | A decode succeeds if and only if the bytes end in a whole suffix, and returns that one |
| BuilderCode.RoundTrip | packages/a2a-protocol/src/builderCode.ts:69-142 | For any calldata and any list that encodes: the appended calldata reads back as the trimmed non-empty codes under schema 0 and starts with the calldata unchanged |
| BuilderCode.NothingToAttribute | packages/a2a-protocol/src/builderCode.ts:69-71 | With no code the calldata is left as it was |
| BuilderCode.Configured.Suffix | packages/a2a-protocol/src/builderCode.ts:151-172 | The first answer is remembered until a reset, and a bad code is no attribution, never a failure |
| BuilderCode.ConfiguredIsHarmless | packages/a2a-protocol/src/builderCode.ts:162-169 | Whatever is configured, the calldata stays whole and in front |
| JobRow.A2AJob.RecordFunding | services/a2a-marketplace-service/src/routes/funding.routes.ts:252-264 | The row becomes ESCROWED whatever it was: an untouched job is open to startExecution, one whose training has begun is left to nobody |
| JobRow.A2AJob.RecordStart | services/a2a-marketplace-service/src/execution.service.ts:106-109 | From any status: only the poller takes the row up from here, and a second start finds it begun |
| JobRow.A2AJob.RecordDelivery | services/a2a-marketplace-service/src/execution.service.ts:183-192 | The poller is done with the row, and verification may claim it: at any time if nobody holds a claim, never if it is verified |
| JobRow.A2AJob.ClaimVerification | workers/training-worker/src/verification_runner.py:52-86 | The claim matches exactly the delivered, unverified, unclaimed or stale rows |
| JobRow.A2AJob.AttachSnapshot | workers/training-worker/src/verification_runner.py:289-300 | The snapshot is attached unconditionally, nobody can claim again, and a delivered row is now the settlement loop's |
| JobRow.A2AJob.RecordVerdict | services/evaluation-service/src/verifier.service.ts:229-241 | The status tells the verdict, and the row is taken up again by nobody: no start, no poll, no claim, no second verdict |
| Settlement.InvKept | services/a2a-marketplace-service/src/execution.service.ts:61-206 | From the draft on, every step of every service, of the chain and of the trainer keeps the two stores consistent |
| Settlement.StoresAgree | services/evaluation-service/src/verifier.service.ts:113-255 | Over any interleaving, crash and retry: at most one verdict lands; DELIVERED in the row means the chain holds that very digest; SETTLED and REFUNDED agree with the chain's verdict; the verdict follows from a VERIFICATION measurement of the committed artifact. That a verdict comes, whichever way it goes, is `VerdictPass` |
| Settlement.FallbackUnreachable | services/evaluation-service/src/verifier.service.ts:210-217 | The verifier's own deliverable commit is never reached |
| Settlement.ClosedChainStays | services/evaluation-service/src/verifier.service.ts:205-225 | A job cancelled, settled or refunded on chain is closed: no step of anyone changes what stands there |
| SettlementProgress.VerdictPass | services/evaluation-service/src/verifier.service.ts:113-255 | Progress, from any run and under any assumptions: an undisturbed pass over a job delivered on chain whose row names a VERIFICATION measurement ends with the one verdict a plain comparison with the target gives, with SETTLED or REFUNDED by it, in both stores, for each of the five operators |
| SettlementProgress.VerificationPass | workers/training-worker/src/verification_runner.py:52-300 | A pass over a delivered job with no claim measures the committed artifact under a fresh snapshot and attaches it |
| SettlementProgress.DeliveryPass | services/a2a-marketplace-service/src/execution.service.ts:133-196 | A pass over a job whose training is complete commits the digest of the snapshot that training produced, on chain and in the row |
| SettlementProgress.StartPass | services/a2a-marketplace-service/src/execution.service.ts:61-125 | A pass over an escrowed job queues one training and makes the job EXECUTING in both stores |
| SettlementProgress.FundingPass | services/a2a-marketplace-service/src/routes/funding.routes.ts:212-273 | An answered funding call puts a posted job in escrow in both stores and goes on to start the work |
| SettlementProgress.PostingPass | services/a2a-marketplace-service/src/job.service.ts:186-263 | An answered pass posts a draft, or a job whose posting failed, in both stores |
| SettlementProgress.FailedPostingPass | services/a2a-marketplace-service/src/job.service.ts:264-270 | An unanswered one leaves the row FAILED, from where it can be posted again |
| SettlementProgress.WholeLife | services/evaluation-service/src/verifier.service.ts:113-255 | For every target, artifact and measurement a job goes from draft to verdict, and is paid or refunded as the plain comparison says |
| SettlementProgress.MissedTargetIsRefunded | services/evaluation-service/src/verifier.service.ts:145-231 | The run with a target of at least 80 and a measurement of 10: REFUNDED, the one verdict false |
| Settlement.TerminalLostExactly | services/a2a-marketplace-service/src/job.service.ts:224-268 | A step takes a row out of SETTLED or REFUNDED if and only if it is one of six unconditional writes, and then it leaves a status from before the delivery; the others are at negotiation.service.ts:174-176, funding.routes.ts:252-264 and execution.service.ts:106-109 |
| Settlement.TerminalStays | services/a2a-marketplace-service/src/execution.service.ts:66-109 | Where each of the six finds the row in the status it was decided in, a finished row stays as it is |
| Settlement.SnapshotChangesExactly | workers/training-worker/src/verification_runner.py:289-300 | The snapshot a row names changes if and only if another one is attached |
| Settlement.AgreementAfterExactly | workers/training-worker/src/verification_runner.py:289-300 | A row with a verdict agrees with its snapshot after an attach exactly when the attached measurement has the recorded outcome, otherwise exactly when it did before |
| Settlement.AgreementAtVerdictExactly | services/evaluation-service/src/verifier.service.ts:229-241 | Right after the verdict is written, exactly when the snapshot named by then has that outcome |
| Settlement.FinishedRowAgreesExactly | services/evaluation-service/src/verifier.service.ts:113-241 | In every run: a finished row names the snapshot attached last, its verdict is the outcome of the one judged, and it bears the verdict out if and only if those two have one outcome |
| Settlement.SettledSnapshotMeetsTarget | services/evaluation-service/src/verifier.service.ts:113-145 | So it does wherever a snapshot is only ever replaced by one of the same outcome, as when no live verification loses its claim |
| SettlementFaults.EveryEarlyWriteCanReopen | services/a2a-marketplace-service/src/job.service.ts:186-271 | One run that ends SETTLED with each of the six writes pending as some caller's next step |
| SettlementFaults.RepeatedFundingReopens | services/a2a-marketplace-service/src/routes/funding.routes.ts:161-264 | From every run with a finished row: a funding call that only then begins makes it ESCROWED |
| SettlementFaults.LateSnapshotBeliesSettled | workers/training-worker/src/verification_runner.py:60-78 | A run in which a settled row names a snapshot that misses the target |
| SettlementLoop.Loop.RecordFailure | services/evaluation-service/src/settlement-loop.ts:51-56 | The failure is counted and the job is skipped for at least a minute |
| SettlementLoop.Loop.SettleOnce | services/evaluation-service/src/settlement-loop.ts:65-107 | A pass tries every due job once, in order, and leaves the backoff those attempts imply |
| SettlementLoop.DelayBounds | services/evaluation-service/src/settlement-loop.ts:41-56 | The wait doubles from a minute and stops at half an hour |
| SettlementLoop.DelaysInMinutes | services/evaluation-service/src/settlement-loop.ts:41-56 | The waits after a first to a sixth failure are 1, 2, 4, 8, 16 and 30 minutes, and 30 ever after |
| SettlementLoop.AttemptsSpread | services/evaluation-service/src/settlement-loop.ts:46-56 | A job that keeps failing is tried at most once a minute, from its sixth failure on at most once every half hour |
| TrainingQueue.Queue.ClaimNextJob | workers/training-worker/src/trait_training_runner.py:68-106 | Takes a least (priority, createdAt) row among the eligible unlocked ones, changes only it, and returns none only if there is none |
| TrainingQueue.Queue.RequeueStaleJobs | workers/training-worker/src/trait_training_runner.py:109-129 | Queues exactly the stale rows, counts them, and leaves none stale |
| TrainingQueue.Queue.ReportProgress | workers/training-worker/src/trait_training_runner.py:169-192 | Written by job id alone: a running job is safe from sweeps until exactly the limit later, and no job becomes eligible or stops being so |
| TrainingQueue.Queue.Finish | workers/training-worker/src/trait_training_runner.py:282-291 | Whoever finishes it, the job is eligible for no claim and stale for no sweep again |
| TrainingQueue.SilentJobReturnsExactly | workers/training-worker/src/main.py:94-102 | In every run a running job that gives no sign of life is queued again, in its old place, if and only if a sweep came more than the limit after its last heartbeat |
| TrainingQueue.ReturnedJobIsClaimed | workers/training-worker/src/trait_training_runner.py:68-106 | and then, once no other open job stands before it, every claim that may serve it answers with it and nothing else |
| TrainingQueue.NoJobTwice | workers/training-worker/src/main.py:94-184 | If live workers report within the limit, no job is ever executed by two of them and no claim takes a job someone has |
| TrainingQueue.WorkedThrough | workers/training-worker/src/trait_training_runner.py:68-106 | Progress: an undisturbed worker takes the job that goes first, by the smaller priority number and then the earlier creation, and leaves it COMPLETED or FAILED as the work went |
| TrainingQueue.SlowWorkerSharesJob | workers/training-worker/src/trait_training_runner.py:109-129 | Without that, a run in which two live workers execute one job |
| Battle.BattleEnv.ApplyAction | ml/reinforcement_learning/environment.py:92-127 | The action's effect on hit points and cooldowns, and its reward |
| Battle.BattleEnv.SimulateEnemy | ml/reinforcement_learning/environment.py:129-140 | The scripted enemy's blow |
| Battle.BattleEnv.Step | ml/reinforcement_learning/environment.py:70-90 | One step: new state, reward, termination and truncation |
| Battle.RewardsRank | ml/reinforcement_learning/environment.py:92-127 | Any landed blow or heal is worth more than any action that lands nothing, and a missed attack is worth least of all |
| Battle.OutcomeReward | ml/reinforcement_learning/environment.py:87-88 | Deciding the fight adds ten if the enemy is down, even with the agent, and takes ten if only the agent is |
| Battle.RangeKeptExactly | ml/reinforcement_learning/environment.py:92-140 | Hit points stay in [0,1] on every step if and only if the difficulty is not negative |
| Battle.DropShowsHit | ml/reinforcement_learning/environment.py:96-119 | Against a living enemy, its hit points drop exactly when an attack or ability landed |
| Rollout.Record | ml/trait_training/rollout.py:97-131 | The harness's book-keeping for one step |
| Rollout.RunEpisode | ml/trait_training/rollout.py:72-138 | The episode stops on the first step that is over, within the step limit, with the metrics of exactly those steps |
| Rollout.BalancedAlways | ml/trait_training/rollout.py:90-131 | At every step: damage dealt is what the enemy lost, hits are what landed, action counts sum to steps |
| Rollout.EpisodeIsConserved | ml/trait_training/rollout.py:9-11 | The hit counts seen from outside equal the simulator's own rule; damage dealt is 1 minus the enemy's final hit points; a win is exactly full damage with hit points left |
| Rollout.EndsInTime | ml/trait_training/rollout.py:89-136 | It ends on the first step that leaves a fighter down or reaches the limit, and on no earlier one |
| Rollout.EpisodeCounts | ml/trait_training/rollout.py:97-138 | Each number of a finished episode is what its name says, counted over the steps of the fight: attempts, hits by the simulator rule, timely flights and heals, what was lost and kept, and what was earned |
| Rollout.RunEpisodes | ml/trait_training/rollout.py:141-162 | The result holds the episode of every seed at every difficulty, at its place |
| Traits.AggregateCounters | ml/trait_training/traits.py:135-166 | The loop sums every counter over the episodes |
| Traits.TotalsAreSound | ml/trait_training/traits.py:135-166 | Summed: wins <= damage dealt <= episodes, hits <= attempts <= steps, action counts sum to steps |
| Traits.TotalsAreSums | ml/trait_training/traits.py:135-166 | Each total is the sum of that number over the episodes, action by action |
| Traits.ComponentsAreUnit | ml/trait_training/traits.py:169-187 | Every component and their weighted sum lie in [0,1] |
| Traits.SkillBetween | ml/trait_training/traits.py:39-46 | The weights sum to one: combat skill lies between its least and greatest component; which weight is whose is the next row |
| Traits.WeightsAreFixed | ml/trait_training/traits.py:41-46 | A gain x in one component alone raises the skill by 35, 30, 20 and 15 hundredths of x: precision, win rate, hit points kept, efficiency |
| Traits.ScoreIsFaithful | ml/trait_training/traits.py:105-107 | On [0,1] the clamp does nothing and the score is the nearest percentage |
| Traits.ScoreKeepsOrder | ml/trait_training/traits.py:105-107 | Rounding never inverts two scores |
| Traits.MeasuredFaithfully | ml/trait_training/traits.py:169-232 | Genuine play is measured with the score clamp never taking effect, every score within 0 to 100; efficiency and patience saturate at one by design |
| Traits.MeasuredInNumbers | ml/trait_training/traits.py:169-232 | All seven scores from the counters alone: precision*attempts = hits, win rate*episodes = wins, aggression*steps = attempts, adaptability*uses = timely uses and so on, each rounded to the nearest percentage |
| Traits.Evaluate | ml/trait_training/rollout.py:141-162 | End to end: for any policy and any draws the ladder is run, and the result is the measurement of exactly those episodes, every score on its scale |
| Gae.AdvantageStep | ml/trait_training/ppo.py:188-195 | The definition satisfies the loop's backward recurrence |
| Gae.ComputeAdvantages | ml/trait_training/ppo.py:185-195 | The reversed in-place loop computes the episode-cut sum of (gamma*lambda)^k-discounted errors, everywhere |
| Gae.LambdaReturn | ml/trait_training/ppo.py:188-197 | Advantages plus values satisfy the lambda-return recursion |
| Gae.PlainReturn | ml/trait_training/ppo.py:188-197 | For lambda = 1 they are the plain discounted return, bootstrapped only if the rollout cut the episode |
| Gae.EpisodesAreSeparate | ml/trait_training/ppo.py:190-194 | Nothing after a done step influences an advantage at or before it |
| VectorEnv.SyncVectorEnv.Book | ml/trait_training/ppo.py:91-106 | One sub-environment's answer is booked and a finished episode restarts on an unused seed |
| VectorEnv.SyncVectorEnv.Step | ml/trait_training/ppo.py:86-108 | Rewards are conserved between finished and running episodes, the finished ones are stored in the order of their sub-environments, and no two episodes of one env share a seed |
| VectorEnv.SeedsRepeatExactly | ml/trait_training/ppo.py:148-153 | The envs of two iterations share a seed if and only if their roots are close enough for it, spelt out case by case |
| VectorEnv.SeedsStayApart | ml/trait_training/ppo.py:148-153 | Within a hundred iterations, a thousand envs and a thousand finished episodes each, none is shared |
| Curriculum.RawRung | ml/trait_training/ppo.py:140-146 | The index is in range by itself: the min never decides |
| Curriculum.NeverEasier | ml/trait_training/ppo.py:140-146 | The difficulty index never decreases |
| Curriculum.EqualTime | ml/trait_training/ppo.py:140-146 | Every rung is used floor(T/L) or ceil(T/L) times |
| Constraints.FindConstraints | packages/a2a-protocol/src/parser.ts:173-204 | The nested loops with their claimed offsets keep exactly the greedy choice, sorted by position |
| Constraints.PickedDisjoint | packages/a2a-protocol/src/parser.ts:183-201 | Kept spans are pairwise disjoint |
| Constraints.DroppedForCause | packages/a2a-protocol/src/parser.ts:183-194 | Every well-formed match that is dropped overlaps an earlier kept one |
| Constraints.GreedyIsUnique | packages/a2a-protocol/src/parser.ts:117-121 | The rule "earlier patterns win the span" has one solution, and it is this one |
| Constraints.FoundExactly | packages/a2a-protocol/src/parser.ts:177-203 | Each constraint found is what one kept match reads, at the place where that match starts |
| Constraints.ExtractDeterministic | packages/a2a-protocol/src/parser.ts:232-298 | The loop files constraints as target, provider requirements and warnings |
| Constraints.FiledOnce | packages/a2a-protocol/src/parser.ts:243-257 | With a provider clause each constraint is the target, a provider requirement or a warned extra, and only one of these |
| Constraints.FiledTwiceExactly | packages/a2a-protocol/src/parser.ts:253-281 | In the extraction itself: a measurable constraint is both warned about as ignored and kept as a provider requirement if and only if there is no clause and it is not the first |
| Constraints.TargetIsFirst | packages/a2a-protocol/src/parser.ts:240-284 | The target is the first constraint of the prompt, if it stands before the provider clause and can be measured |
| Constraints.GroundedReadingWins | packages/a2a-protocol/src/parser.ts:323-375 | A reading of the model that the prompt bears out stands, target and requirements alike; what it leaves open is the patterns' own |
| Constraints.NothingInvented | packages/a2a-protocol/src/parser.ts:323-363 | After reconciling with a language model, every requirement has a number from the prompt or is the patterns' own, and none is unmeasurable |

## Left out

- Signatures, EIP-712 byte encoding, keccak256: signatures are outside the digests, and digests are functions of the struct's fields.
- Identifiers and hashes in more than one spelling: ids are taken as already normal text, hashes as numbers, roles and kinds as their declared unions.
- Negotiation.VerifyTranscript: the encoder's range checks on the identifiers are not modelled, only those on price, sequence number and expiry.
- NegotiationService.Thread.AppendOffer: two concurrent appends are not interleaved; the unique (negotiation, sequence) key in the database makes the second insert fail.
- What a registration publishes: the content of the agent card and of exception messages, and the auto-bid default switched on after a registration.
- Canonical.Canonicalize: the path in an error message, functions with a toJSON property, and keys outside the Basic Multilingual Plane, which JavaScript orders by code unit; any one fixed order gives the same theorems.
- JsonNumber.ReadFraction: which double an exact value rounds to, and that there is no negative zero; neither reaches a theorem, and a negative zero is printed as zero.
- Json.ReadPrinted: escaped surrogates that stand alone.
- Json.ParsedGenuine: a repeated key keeps its last value, and its position among the keys is not modelled.
- Usdc.FormatThenParse: amounts given as JavaScript numbers, which the source prints to text first.
- Requirements.BuiltIsSettleable: the default nonce is an input; lower-casing of hash text covers ASCII letters.
- Settlement.TerminalLostExactly: the signatures, spending limits and budget checks before a posting, an opening or a funding, which can only stop it; the provider and price written along with the status.
- Settlement.StoresAgree: the report and its storage, transaction hashes, timestamps and lastError, which decide nothing; disputes and arbitration; the escrow contract itself beyond what it accepts when.
- Liveness of settlement: after a crash between the chain call and the row's update the code does not repair the row.
- SettlementLoop.Loop.SettleOnce: each attempt's outcome and clock are inputs.
- TrainingQueue.Queue.ClaimNextJob: stage, progress and error text of a job; the locks other statements hold are an input.
- Battle.BattleEnv.Step: positions and the distance between the fighters are inputs, as are the random draws; observations are not modelled.
- Rollout.RunEpisode: the policy is a sequence of actions, which covers every policy.
- Traits.MeasuredFaithfully: the action entropy is a parameter with values in [0,1].
- Gae.ComputeAdvantages: normalisation of advantages, the clipped loss, the optimiser and sampling.
- Constraints.FindConstraints: the regular expressions; each pattern's matches are inputs. Game detection and the search for the provider clause are substring lookups and left as inputs.
- Constraints.FiledTwiceExactly: speaks of constraints with pairwise different metric or value, since a warning and a requirement name only these.
- Constraints.NothingInvented: the merge's warnings and confidence; whether a pattern's own number stands in the prompt as a whole number is not claimed, since a pattern may stop inside one ("combat skill 90+" reads 9).
- HTTP routes other than the funding one, gateways, user interface, configuration, deployment, messaging and storage clients, circuit breakers, ratings: plumbing or easy arithmetic.
