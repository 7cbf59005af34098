# JianYu server library: a verified model

A Dafny model of the parts of the library whose correctness is not visible from reading one
function, with proofs of what they promise. `dafny verify dfyconfig.toml` checks all of it.

- **Fixed-point decimals** (`pkg/util/decimal.go`). A decimal is a coefficient times a power of
  ten. `Val` gives the real number it stands for, and the arithmetic, the division, the four
  rounding disciplines, the conversion from binary64, the power by halving, the printer and the
  parser are proved about that number. Files `Decimal`, `DecimalLaws`, `DecimalRounding`,
  `DecimalMod`, `DecimalFloat`, `DecimalPow`, `DecimalReciprocal`, `DecimalText`,
  `DecimalNumerals`, over `IntMath`, `StrConv` and `NumberTexts`.
- **Three concurrent structures**, each as a state machine whose steps interleave any number of
  threads, and beside it as a class proved against the specification its protocol steps follow:
  the per-key lock (`KeyLockProtocol`, `KeyLock`), the blocking queue (`QueueProtocol`, `Queue`)
  and the one-shot rendezvous table (`WaitProtocol`, `Wait`). Safety is proved over every run, and
  in `KeyLockCalls`, `QueueCalls` and `WaitCalls` that every call takes its effect before it ends.
- **The sequence allocator** (`Seq`): a high-water mark in a database row, with failing writes
  and restarts anywhere in a run.
- **Version 1 UUIDs** (`Uuid`, `UuidText`, `UuidRefusals`): the clock-sequence storage, the packing (RFC 4122,
  sections 4.1.2, 4.1.5 and 4.2.1), distinctness over runs, and the text form (section 3).
- **Form encoding of messages** (`FormScalar`, `Form`, `FormMessage`, `FormLaws`,
  `FormNames`, `FormExact`, `FormCollisions`, `FormTexts`): a message tree
  flattened to dotted keys and rebuilt from them in any key order, text by text.
- **Transaction scopes** (`Zdb`, `ZdbLaws`, `ZdbFates`): programs of `NewOrm` and arbitrarily nested
  `Transaction` calls that succeed, fail, panic or recover.

Code that changes state is modelled by methods and classes, each proved against a function of its
inputs or old state; the properties are then lemmas about that function. `big.Int` is `int`, Go's
truncated division is defined in `IntMath`, int32 exponents are a subset type, and exponent
arithmetic that would leave int32 is excluded by a precondition or, in `Pow`, answered with None.
Time, randomness, the order of map iteration, the outcome of database calls and the choice of the
next thread are parameters or explicit choices over which every result quantifies.

Where the code differs from what its comments say, the model follows the code:

- `UnmarshalText` documents three spellings. It also accepts an opening brace without a closing
  one, and it indexes an empty slice when the URN form stops before its last group
  (`UuidText.ParsesExactly`, `UuidText.PanicsExactly`).
- `Mod` is documented as the remainder of a division, but its result can have the opposite sign of
  its first operand, because the quotient is rounded before it is truncated
  (`DecimalMod.ModLosesSign`); `DecimalMod.ModSignExactly` says for which operands.
- `NewFromString` reads more and less than decimals: it accepts a sign after the point and refuses
  a fraction of zeros without a digit before it (`DecimalNumerals.OddTexts`);
  `DecimalNumerals.ParsesExactly` says what it accepts.
- `QuoRem` checks its scale for overflow only after subtracting in int32, so the check never fires
  (`DecimalLaws.ScaleCheckIsIdle`); `QuoRemFits` states what callers must keep to.
- A nested `Transaction` commits what the outer one has begun (`ZdbLaws.NestedCommitsOuter`);
  `ZdbFates.AllOrNothingExactly` says when all-or-nothing holds nevertheless.

## Model

| member | source | states |
|---|---|---|
| DecimalLaws.RescaleDownExact | pkg/util/decimal.go:295-312 | lowering the exponent never changes the number |
| DecimalLaws.RescaleUpTruncates | pkg/util/decimal.go:295-312 | raising the exponent truncates toward zero, by less than one unit of the new exponent |
| DecimalLaws.AddExact | pkg/util/decimal.go:325-335 | the sum stands for the exact sum, at the smaller exponent |
| DecimalLaws.SubExact | pkg/util/decimal.go:338-348 | the difference stands for the exact difference |
| DecimalLaws.MulExact | pkg/util/decimal.go:361-377 | the product stands for the exact product |
| DecimalLaws.CmpOrders | pkg/util/decimal.go:499-517 | Cmp decides the order of the numbers whatever the exponents, each outcome if and only if |
| DecimalLaws.QuoRemContract | pkg/util/decimal.go:397-440 | d = d2*q + r, q a multiple of 10^-precision, r smaller than d2*10^-precision and with the sign of d, for all signs and negative precision |
| DecimalLaws.ScaleCheckIsIdle | pkg/util/decimal.go:409-413 | the overflow check never fires, and the wrapped exponent difference is the right one if and only if it fits int32 |
| DecimalLaws.ScaleWraps | pkg/util/decimal.go:409-413 | operands for which it is not |
| DecimalLaws.TruncateExactly | pkg/util/decimal.go:811-817 | Truncate leaves exactly the places asked for and cuts off less than one unit, toward zero; with fewer places, or a negative number asked for, nothing changes |
| DecimalLaws.IntPartExactly | pkg/util/decimal.go:572-575 | the integer part, of which the low 64 bits are kept; it is unchanged if and only if it fits them |
| DecimalRounding.NearestAwayIsBest | pkg/util/decimal.go:442-446 | the definition of nearest, ties away from zero: no multiple is closer and an equally close one is nearer to zero |
| DecimalRounding.NearestAwayUnique | pkg/util/decimal.go:442-446 | that definition singles out one multiple |
| DecimalRounding.NearestEvenUnique | pkg/util/decimal.go:686-700 | nearest with ties to even singles out one multiple |
| DecimalRounding.DivRoundNearest | pkg/util/decimal.go:447-469 | DivRound is the multiple of 10^-precision nearest to d/d2, ties away from zero |
| DecimalRounding.RoundedNearest | pkg/util/decimal.go:657-684 | the specification of Round is the multiple of 10^-places nearest to d, ties away from zero |
| DecimalRounding.RoundedIsDivRoundByOne | pkg/util/decimal.go:657-684 | rounding agrees with DivRound by one |
| DecimalRounding.Round | pkg/util/decimal.go:665-684 | truncating to one more digit, adding five and dropping it computes exactly that rounding, for negative numbers and negative places too |
| DecimalRounding.RoundBank | pkg/util/decimal.go:701-716 | the result is the nearest multiple with ties to the even coefficient |
| DecimalRounding.RoundCashNearest | pkg/util/decimal.go:729-764 | for 5, 10, 25, 50 and 100 the result is the multiple of interval/100 nearest to d, ties away from zero; the later division and truncation lose nothing |
| DecimalMod.ModContract | pkg/util/decimal.go:472-475 | Mod differs from d by an integer multiple of d2 and is smaller than d2 in magnitude |
| DecimalMod.ModSignExactly | pkg/util/decimal.go:471-475 | Mod is zero or has the sign of d if and only if the true remainder, on the coefficients at a common exponent, is zero or leaves room for the rounding |
| DecimalMod.StaysShortAsReal | pkg/util/decimal.go:471-475 | that condition in real numbers: the quotient is whole or more than half a unit of the last place below the next whole number |
| DecimalMod.ModLosesSign | pkg/util/decimal.go:471-475 | two positive operands whose Mod at the default 16 places is negative |
| DecimalFloat.NewFromFloatWithExponent | pkg/util/decimal.go:194-273 | the multiple of 10^exp nearest to the finite binary64 number, ties away from zero; exact when the exponent is below what the number needs; the normalising loop ends |
| DecimalFloat.SmallExponentsFit | pkg/util/decimal.go:234-256 | exponents up to 2^31 - 1075 keep the exponent difference and its negation in int32 for every number |
| DecimalFloat.NegationWraps | pkg/util/decimal.go:251-256 | one more is too much: for 0.5 and the largest exponent the difference is -2^31, whose negation wraps |
| DecimalFloat.NewFromFloat | pkg/util/decimal.go:183-185 | every finite binary64 number is converted exactly |
| DecimalFloat.ScaledMantissa | pkg/util/decimal.go:236-260 | the quotient of powers of five and two the conversion builds is mant*2^e2 / 10^exp |
| DecimalPow.HalfIsSmaller | pkg/util/decimal.go:478-491 | the recursion of Pow ends: the exponent's coefficient at 10^-16 shrinks with each rounded halving |
| DecimalPow.TracksNext | pkg/util/decimal.go:483 | a rounded halving of an exponent within 10^-16 of n/m, and exact when m divides n, is so again for n/2m |
| DecimalPow.TracksIntPart | pkg/util/decimal.go:480-489 | such an exponent has the integer part of n/m |
| DecimalPow.PowTracks | pkg/util/decimal.go:478-491 | with an exponent that tracks n/2^j, Pow raises to exactly the integer part of n/2^j |
| DecimalPow.PowExact | pkg/util/decimal.go:478-491 | Pow(d, n) has coefficient value^n and exponent n*exp for every integer 0 <= n < 2^53, however n is represented |
| DecimalPow.PowValue | pkg/util/decimal.go:478-491 | that decimal stands for the n-th power of the number d stands for |
| DecimalReciprocal.NegativePow | pkg/util/decimal.go:478-491 | Pow(d, -n), for every integer 0 <= n < 2^53 and however -n is represented, is the power by halving the integer n with one rounded division by d at every odd step: the rounding of the decimal halves never shows |
| DecimalReciprocal.ReciprocalNearest | pkg/util/decimal.go:478-491 | the power to -1 is the multiple of 10^-16 nearest to 1/d, ties away from zero |
| DecimalReciprocal.ZeroHasNone | pkg/util/decimal.go:478-491 | a negative power of zero panics, whatever the exponent |
| DecimalText.String | pkg/util/decimal.go:949-992 | the trimming loop and the padding branches print the specified text |
| DecimalText.StringRoundTrip | pkg/util/decimal.go:105-154 | whatever is printed, trimmed or not, parses back to the same number |
| DecimalText.TextIsCanonical | pkg/util/decimal.go:949-992 | two decimals are Equal if and only if they print the same text, across exponents and trailing zeros |
| DecimalNumerals.PrintedForm | pkg/util/decimal.go:949-992 | the printed form: minus exactly for negative coefficients, digits without leading zeros that make up the coefficient, and all places after the point, or with trimming those up to the last that is not zero |
| DecimalNumerals.NumeralParses | pkg/util/decimal.go:105-154 | a numeral (optional sign, digits with an optional point, an optional 'e' or 'E' with a signed int32 exponent x) stands for its signed digits times 10^(x - places after the point); it is refused if no digit counts or if x less the places kept leaves int32, each with its error |
| DecimalNumerals.ParsesExactly | pkg/util/decimal.go:105-154 | the texts accepted are exactly the numerals with a digit that counts and an exponent that fits |
| DecimalNumerals.CutParses | pkg/util/decimal.go:122-154 | what any text with at most one point and a proper exponent gives: its coefficient and exponent, or which error |
| DecimalNumerals.BadExponent | pkg/util/decimal.go:111-121 | a marked exponent that is no int32 is an error whatever the mantissa: the one of range if its number or its leading digits are too large, else the one of syntax |
| DecimalNumerals.TwoPointsBeforeMark | pkg/util/decimal.go:123-137 | two points before the exponent are an error |
| DecimalNumerals.OddTexts | pkg/util/decimal.go:129-143 | '.0' is refused, and '.-5' is accepted as -0.05: the zeros are stripped and the sign counted before the digits are parsed |
| StrConv.IntRoundTrip | pkg/encoding/form/proto_decode.go:136-147 | what strconv prints for a signed integer its parser reads back, within the bit size |
| StrConv.UintRoundTrip | pkg/encoding/form/proto_decode.go:148-159 | the same for unsigned integers |
| StrConv.SetStringRoundTrip | pkg/util/decimal.go:137-143 | big.Int's SetString reads back what String prints |
| NumberTexts.IntStringExactly | pkg/encoding/form/proto_encode.go:146 | the text of an integer is its decimal form, with a minus exactly if negative, no plus and no leading zero, and no other text is |
| NumberTexts.ParseIntExactly | pkg/encoding/form/proto_decode.go:136-147 | the signed parser reads exactly optionally signed digits whose number is in range, and when the error is one of range |
| NumberTexts.ParseUintExactly | pkg/encoding/form/proto_decode.go:148-159 | the unsigned parser on every text: number, syntax error or range error |
| NumberTexts.SetStringExactly | pkg/util/decimal.go:139-143 | SetString reads exactly optionally signed digits |
| KeyLockProtocol.StepKeepsInv | pkg/keylock/keylock.go:31-73 | every step of any client keeps the invariant tying map, counts, mutex holders and program places |
| KeyLockProtocol.ReachableInv | pkg/keylock/keylock.go:31-73 | the invariant holds in every state of every run |
| KeyLockProtocol.MutualExclusion | pkg/keylock/keylock.go:31-62 | two clients between Lock and Unlock never have the same key |
| KeyLockProtocol.UnlockReleasesOwnLock | pkg/keylock/keylock.go:52-62 | Unlock finds the inner lock its caller acquired and unlocks exactly that one, while held |
| KeyLockProtocol.CountsAreExact | pkg/keylock/keylock.go:99-116 | each count equals the number of clients past add and not past done, and a positive one belongs to the lock in the map |
| KeyLockProtocol.CleanLeavesUsedKeys | pkg/keylock/keylock.go:65-73 | at the end of Clean the entries are exactly the keys in use; with none in use the map is empty |
| KeyLockProtocol.NoDeadlock | pkg/keylock/keylock.go:31-73 | while a call is under way some call can go on |
| KeyLockCalls.CallsStart | pkg/keylock/keylock.go:31-73 | a chosen call starts with its key, a client that has locked goes on to Unlock with the lock it holds, and no step moves another client |
| KeyLockCalls.LockStep | pkg/keylock/keylock.go:31-49 | in every state, every step of Lock(key) leads to a later place of the same call, or to its return with the inner mutex that the map has for the key held by its client; never elsewhere |
| KeyLockCalls.LockFinds | pkg/keylock/keylock.go:33-44 | where Lock looks its key up, under the read lock or again under the write lock, it goes on with the entry there is |
| KeyLockCalls.UnlockStep | pkg/keylock/keylock.go:52-62 | every step of Unlock leads to a later place of the same call, with the same key and inner lock, or ends it with that inner mutex, which its client held, released |
| KeyLockCalls.CleanStep | pkg/keylock/keylock.go:65-73 | a Clean begins with all keys, visits one a step, removes no other, and ends when it has visited all |
| KeyLockCalls.LockEndsLocked | pkg/keylock/keylock.go:31-49 | in every run, a Lock that has begun is still under way or has ended with its key locked by its client |
| KeyLockCalls.UnlockEndsReleased | pkg/keylock/keylock.go:52-62 | in every run, an Unlock that has begun is still under way or has ended with its mutex released |
| KeyLockCalls.HeldUpByHolder | pkg/keylock/keylock.go:31-73 | a client that cannot go on waits for a mutex, and another client is in a place that holds it |
| KeyLockObject.KeyLock.Lock | pkg/keylock/keylock.go:31-49 | the entry is found or created, counted and held; other entries are untouched |
| KeyLockObject.KeyLock.Unlock | pkg/keylock/keylock.go:52-62 | the entry of the key, if any, is uncounted and released |
| KeyLockObject.KeyLock.Clean | pkg/keylock/keylock.go:65-73 | exactly the entries with count zero are removed, in whatever order they are visited |
| KeyLockObject.LockUnlockClean | pkg/keylock/keylock.go:31-73 | locking and unlocking a key leaves nothing that Clean would not have left anyway |
| KeyLockObject.SoloLock | pkg/keylock/keylock.go:31-49 | run alone, the protocol's Lock does to the table what the object's Lock does |
| KeyLockObject.SoloUnlock | pkg/keylock/keylock.go:52-62 | the same for Unlock |
| KeyLockObject.SoloClean | pkg/keylock/keylock.go:65-73 | the same for Clean |
| KeyLockObject.TwoMutexesHeldForOneKey | pkg/keylock/keylock.go:52-73 | a run in which two inner mutexes of one key are held at once, which mutual exclusion has to survive |
| QueueProtocol.StepKeepsInv | pkg/pool/queue.go:25-81 | every step keeps the invariant on mutex, order, wake-ups and closing |
| QueueProtocol.NoLostWakeup | pkg/pool/queue.go:25-63 | while a popper waits unsignalled, every buffered item has a thread on its way to it; with the mutex free these are signalled poppers |
| QueueProtocol.FirstInFirstOut | pkg/pool/queue.go:25-81 | accepted pushes are always the returned items, then the one in hand, then the buffer |
| QueueProtocol.ResultsAreItems | pkg/pool/queue.go:43-81 | Pop returns nothing only when closed, and otherwise the next accepted item; TryPop's flag tells an empty open queue apart |
| QueueProtocol.OnlyAnEmptyQueueBlocks | pkg/pool/queue.go:33-63 | when nothing can move, only poppers are left, waiting on an empty open queue |
| QueueCalls.CallsGoOn | pkg/pool/queue.go:25-81 | a step leads on within the same call, nearer to its end or to waiting; only a call that is leaving ends, and no step changes which call another thread is in |
| QueueCalls.PushStep | pkg/pool/queue.go:25-32 | a Push carries its item to the buffer's end exactly if the queue is open, once, before it leaves |
| QueueCalls.SignalStep | pkg/pool/queue.go:28-31 | signalling wakes one waiting popper if there is one |
| QueueCalls.PopStep | pkg/pool/queue.go:43-63 | Pop waits exactly for an empty open queue, looks again when woken, and returns nothing from a closed queue and the first item from an open one |
| QueueCalls.TryPopStep | pkg/pool/queue.go:66-81 | TryPop returns the first item if any, and otherwise whether the queue is closed |
| QueueCalls.CloseStep | pkg/pool/queue.go:33-40 | Close ends with the queue closed, and where it closes it wakes every waiting popper |
| QueueCalls.PushTakesEffect | pkg/pool/queue.go:25-32 | in every run, a Push that has begun has not reached the queue yet, or has added its item or found the queue closed |
| QueueCalls.HeldUpByHolder | pkg/pool/queue.go:25-81 | a thread that cannot go on waits in Pop, or for the mutex, whose holder can go on |
| QueueObject.Queue.Push | pkg/pool/queue.go:25-32 | appends to an open queue, leaves a closed one alone |
| QueueObject.Queue.Close | pkg/pool/queue.go:33-40 | closes for good and keeps the buffer |
| QueueObject.Queue.TryPop | pkg/pool/queue.go:66-81 | takes the first item if any; the flag is false exactly for an empty open queue |
| QueueObject.Queue.Pop | pkg/pool/queue.go:43-63 | waits through other calls while empty and open; then nothing from a closed queue, the first item from an open one |
| QueueObject.AwaitedExactly | pkg/pool/queue.go:50-52 | the contents Pop waits through: it waits again while it finds the queue empty and open, and no longer |
| QueueObject.StepsActAsCalls | pkg/pool/queue.go:25-81 | every protocol step changes the content as one call of the object does, with the same result, or not at all |
| WaitProtocol.StepKeepsInv | pkg/wait/wait.go:46-69 | every step keeps the invariant on shards, owners and channels |
| WaitProtocol.ShardsAreOneMap | pkg/wait/wait.go:35-69 | looking an id up in its shard is looking it up in one flat map, and an id is only ever in shard id % 64 |
| WaitProtocol.StepsActOnFlatMap | pkg/wait/wait.go:46-69 | Register inserts into and Trigger removes from the flat map; a duplicate panics and changes nothing |
| WaitProtocol.OneValueThenOneClose | pkg/wait/wait.go:59-69 | each channel gets at most one value and at most one close, after it, and nothing is sent or closed twice |
| WaitProtocol.SendNeverBlocks | pkg/wait/wait.go:59-69 | Trigger's send goes to an empty, open channel registered for its id |
| WaitCalls.StoredIsServed | pkg/wait/wait.go:46-69 | in every run, a channel that was ever stored is still in the table and untouched, or a Trigger took it out and is about to send or close, or it is closed with exactly the argument of that Trigger sent on it |
| WaitCalls.StagesApart | pkg/wait/wait.go:46-69 | these three are exclusive, and the Trigger and the value are unique |
| WaitCalls.UnstoredIsUntouched | pkg/wait/wait.go:46-69 | a channel that was never stored, its registration having been refused or being under way, gets no value and is never closed |
| WaitCalls.StoredStep | pkg/wait/wait.go:46-69 | a stored channel leaves the table only by the step of a Trigger for its id, which then has it on its way |
| WaitCalls.TriggerStep | pkg/wait/wait.go:59-69 | every step of Trigger(id, x) leads to a later place of the same call, with the channel it found once it has looked, or ends the call: with that channel closed after x, or without one if it found none |
| WaitCalls.TriggerEndsDelivered | pkg/wait/wait.go:59-69 | in every run, a Trigger that has found a channel is still under way or has ended with its argument delivered to it and the channel closed |
| WaitCalls.RegisterStep | pkg/wait/wait.go:46-57 | every step of Register leads on within the call; its own channel is stored under the id exactly if there was none, and returned while stored |
| WaitCalls.BufferStep | pkg/wait/wait.go:48-68 | a channel's buffer is filled by the one send and emptied only by a receive, which gets the value sent |
| WaitCalls.HeldUpByHolder | pkg/wait/wait.go:46-69 | a thread that cannot go on waits for the mutex of its shard, and the holder can go on |
| WaitCalls.SoloTrigger | pkg/wait/wait.go:59-69 | run alone, a Trigger that finds a channel removes the entry, sends, closes and changes nothing else, as the object's does |
| WaitCalls.SoloTriggerNothing | pkg/wait/wait.go:59-69 | run alone, one that finds none changes nothing |
| WaitCalls.SoloRegister | pkg/wait/wait.go:46-57 | run alone, a Register stores its channel under a new id and panics on one that is registered, as the object's does |
| WaitObject.WaitList.Register | pkg/wait/wait.go:46-57 | a fresh channel under the id, or the panic exactly if the id is registered; other ids untouched |
| WaitObject.WaitList.Trigger | pkg/wait/wait.go:59-69 | the entry is gone, its channel holds the value and is closed; other ids untouched |
| WaitObject.WaitList.IsRegistered | pkg/wait/wait.go:71-77 | true exactly if the id has a channel |
| SeqAllocator.Allocator.AddOrUpdateSeq | config/seq.go:79-82 | the row holds the new mark unless the write fails before reaching it |
| SeqAllocator.Allocator.GenSeq | config/seq.go:23-77 | one call under every fault of its query and writes |
| SeqAllocator.Allocator.Crash | config/seq.go:12-20 | memory is lost, the row survives |
| SeqAllocator.StepKeepsInv | config/seq.go:23-77 | CurSeq <= MaxSeq <= stored mark between calls, and each number issued is above all before it |
| SeqAllocator.NextNumber | config/seq.go:23-77 | a call issues exactly the number after the last one, or the first after the stored mark where memory is empty; it panics if and only if a query or write it needs fails, and says what is in memory and row after either |
| SeqAllocator.RunKeepsInv | config/seq.go:23-77 | the same over every run of calls, faults and restarts |
| SeqAllocator.IssuedIncrease | config/seq.go:23-77 | the numbers issued strictly increase over any run of calls, faults and restarts |
| SeqAllocator.IssuedIsCovered | config/seq.go:63-75 | a number is covered by the stored mark before it is handed out |
| SeqAllocator.MarkGrowsSlowly | config/seq.go:63-75 | the mark grows by at most one step a call, which bounds how far a run is from leaving int64 |
| Uuid.MaskingAsArithmetic | pkg/util/uuid.go:214-221 | the arithmetic used for the version and variant bytes is the masking and shifting on all bytes |
| Uuid.ReadBack | pkg/util/uuid.go:401-417 | 60-bit time, 14-bit clock sequence, node, version and variant are read back from the packed bytes |
| Uuid.PackedEqual | pkg/util/uuid.go:401-417 | two UUIDs are equal if and only if 60 bits of time and 14 bits of clock sequence are |
| Uuid.SetVersion | pkg/util/uuid.go:214-216 | byte 6 gets the version, all others stay |
| Uuid.SetVariant | pkg/util/uuid.go:219-221 | byte 8 gets the variant, all others stay |
| Uuid.Storage.GetStorage | pkg/util/uuid.go:383-398 | the sequence moves on exactly when the clock has not advanced |
| Uuid.Storage.NewV1 | pkg/util/uuid.go:401-417 | the bytes written in place are the packed reading, sequence and node |
| Uuid.SameUuid | pkg/util/uuid.go:383-417 | exactly when two UUIDs of one run coincide, for arbitrary clock readings |
| Uuid.DistinctOverRun | pkg/util/uuid.go:383-417 | pairwise distinct over any run of readings below 2^60 in which the clock fails to advance fewer than 2^14 times |
| Uuid.StandingStillRepeats | pkg/util/uuid.go:388-396 | the bound cannot be relaxed: after 2^14 readings of a standing clock a UUID repeats |
| UuidText.String | pkg/util/uuid.go:197-211 | the buffer filled group by group is the lower-case 8-4-4-4-12 text |
| UuidText.UnmarshalText | pkg/util/uuid.go:235-283 | the loop over the groups ends as specified on every text and has stored exactly the bytes of the groups before |
| UuidText.ParsesExactly | pkg/util/uuid.go:230-283 | the texts accepted, if and only if, and the sixteen bytes they spell |
| UuidRefusals.EndsAtFirstFault | pkg/util/uuid.go:235-283 | the outcome for every text: that of the first group at fault, by the places in the text (a missing dash, too short, too long, or not hexadecimal, in this order) |
| UuidText.TextSpells | pkg/util/uuid.go:197-211 | the printed text is well formed and spells the bytes printed |
| UuidText.TextRoundTrip | pkg/util/uuid.go:197-283 | parsing recovers the UUID from its text, its braced and its urn:uuid: form |
| UuidText.ParseThenPrint | pkg/util/uuid.go:197-283 | a well-formed text of either case prints back in lower case |
| UuidText.PanicsExactly | pkg/util/uuid.go:253-257 | exactly which inputs make the parser index past their end |
| UuidText.PanicInput | pkg/util/uuid.go:253-257 | such an input |
| UuidText.OpenBraceParses | pkg/util/uuid.go:265-269 | a UUID in an opening brace without a closing one is accepted |
| FormScalar.ScalarRoundTrip | pkg/encoding/form/proto_encode.go:129-148 | bools, strings, integers in range and known enum numbers survive formatting and parsing; formatting fails exactly for unknown enum numbers |
| FormScalar.ParsedIsTyped | pkg/encoding/form/proto_decode.go:111-188 | whatever parses has the kind and range of the field |
| FormTexts.FormatExactly | pkg/encoding/form/proto_encode.go:129-148 | what each kind is written as: a bool the word true or false, a string itself, an integer its decimal form, a known enum number the name of the first value that has it; failing exactly for other enum numbers |
| FormTexts.UnsetWritten | pkg/encoding/form/proto_encode.go:129-148 | what an unset scalar is written as |
| FormTexts.ParseExactly | pkg/encoding/form/proto_decode.go:111-188 | which texts are read as which scalar, for every kind, if and only if; enums by name before number |
| Form.EncodeRepeatedField | pkg/encoding/form/proto_encode.go:98-109 | the texts of all elements in order, or the failure of one |
| Form.EncodeByField | pkg/encoding/form/proto_encode.go:33-96 | the recursive walk writes to the map it is given what the specification says |
| Form.EncodeMessage | pkg/encoding/form/proto_encode.go:21-31 | an absent message gives no entries, any other its encoding |
| FormMessage.Message.PopulateRepeatedField | pkg/encoding/form/proto_decode.go:84-93 | values are appended up to the first that does not parse |
| FormMessage.Message.PopulateAt | pkg/encoding/form/proto_decode.go:56-82 | the values of a key are stored in the field its path ends at, or refused as specified |
| FormMessage.Message.PopulateFieldValues | pkg/encoding/form/proto_decode.go:29-73 | the loop down the path, setting messages on the way, does what descending recursively does, errors and half-done work included |
| FormMessage.Message.MapProto | pkg/encoding/form/proto_decode.go:20-27 | all entries in some order without repetition, up to the first error |
| FormNames.KeyFindsField | pkg/encoding/form/proto_decode.go:36-45 | where no names clash the encoder's key leads the decoder to the field |
| FormNames.ClashFreeIsWellNamed | pkg/encoding/form/proto_decode.go:36-45 | so in a tree without name clashes every key is looked up as its own field |
| FormNames.WellNamedLeadsBack | pkg/encoding/form/proto_decode.go:34-55 | then every dotted key, split again, leads the decoder to the leaf it was written for |
| FormLaws.KeysApart | pkg/encoding/form/proto_encode.go:34-47 | where all keys lead back no two leaves share one |
| FormLaws.EncodeHas | pkg/encoding/form/proto_encode.go:33-96 | every leaf except an empty list is in the map under its key, formatted |
| FormTexts.TableTexts | pkg/encoding/form/proto_encode.go:33-109 | under the key of a leaf stand exactly the texts it is written as, one for a scalar and one an element, in order, for a list |
| FormTexts.KeySpelled | pkg/encoding/form/proto_encode.go:34-47 | the key of a leaf is its name, the JSON name where one is declared, behind the names of the messages it is in, with points between |
| FormTexts.UnsetLeaf | pkg/encoding/form/proto_encode.go:33-60 | the leaves of an unset message read as zeros and empty lists, at any depth |
| FormLaws.KeyIsOfLeaf | pkg/encoding/form/proto_encode.go:33-96 | and nothing else is |
| FormLaws.EncodeSucceeds | pkg/encoding/form/proto_encode.go:33-96 | encoding succeeds if and only if every leaf can be formatted |
| FormLaws.PopulateLeaf | pkg/encoding/form/proto_decode.go:29-82 | decoding an entry, under any names, does to the leaf its key leads to what assigning does, and changes no other leaf |
| FormTexts.LookupExactly | pkg/encoding/form/proto_decode.go:36-45 | a name in a key is looked up among the names, and only where none is it among the JSON names |
| FormTexts.AssignExactly | pkg/encoding/form/proto_decode.go:64-93 | a scalar takes exactly one value that can be read, a message none, each refusal with its error and without effect |
| FormTexts.AppendExactly | pkg/encoding/form/proto_decode.go:84-93 | a list takes the values up to the first that cannot be read, in order |
| FormTexts.PopulateStops | pkg/encoding/form/proto_decode.go:34-73 | how a key ends that leads to no leaf: an unknown name is passed over in silence, going on below a field that is no message is an error, and so is a value for a message |
| FormTexts.StopsOrReaches | pkg/encoding/form/proto_decode.go:34-73 | every key reaches a leaf or meets one of these |
| FormLaws.StorableRestores | pkg/encoding/form/proto_decode.go:111-188 | a scalar survives formatting and parsing exactly if its enum number is known or its floating-point text reads back |
| FormLaws.StorableMessage | pkg/encoding/form/proto_encode.go:129-148 | a message of such scalars meets the condition of the round trip |
| FormLaws.RoundTrip | pkg/encoding/form/proto_decode.go:20-73 | decoding an encoded message into any message, in any key order, succeeds and puts every leaf back: scalars replaced, lists appended; asked of the names only that every key leads back to its own leaf |
| FormLaws.FreshRoundTrip | pkg/encoding/form/proto_decode.go:20-73 | decoded into a fresh message, every leaf and list equals the encoded one |
| FormExact.NotBothRestored | pkg/encoding/form/proto_decode.go:20-73 | where the key of a leaf, at any depth and of any kind, does not lead back, no order of the entries restores both of two messages that differ there |
| FormExact.PlainKindsHaveTwo | pkg/encoding/form/proto_encode.go:129-148 | bools, strings, integers and their lists can carry two values through |
| FormExact.RoundTripExactly | pkg/encoding/form/proto_decode.go:20-73 | the round trip holds for all messages and key orders if and only if every key leads back to its own leaf, for message types whose leaves can each carry two values |
| FormCollisions.MisledFieldIsLost | pkg/encoding/form/proto_decode.go:36-45 | where a string field's key is looked up as another field, some text in that field is lost from any restorable message in every key order |
| FormCollisions.JsonNameCollision | pkg/encoding/form/proto_decode.go:38-44 | why names matter: a JSON name that is another field's name sends the value to that field |
| Zdb.TxManager.GetDB | pkg/zdb/tx_manager.go:27-36 | the handle registered for the transaction and database, if any |
| Zdb.TxManager.AddDB | pkg/zdb/tx_manager.go:38-48 | registers a handle and keeps all others |
| Zdb.TxManager.BeginTx | pkg/zdb/tx_manager.go:50-53 | a transaction id not used before |
| Zdb.OpenedExactly | pkg/zdb/zdb.go:38-86 | NewOrm succeeds if and only if the database is registered for the transaction already, or is known and its Begin succeeds; a registered one changes nothing, else exactly one unfinished handle of that database and transaction is added and registered, and every other registration stays |
| Zdb.TxManager.Commit | pkg/zdb/tx_manager.go:55-72 | the loop over the entry stops at the first failing handle, and the entry goes in any case |
| Zdb.TxManager.Rollback | pkg/zdb/tx_manager.go:74-90 | the same with rolling back |
| Zdb.TxManager.NewOrm | pkg/zdb/zdb.go:38-86 | success if and only if the pair is registered, or the database known and Begin successful; one handle a transaction and database, begun and registered on first use beside all others |
| Zdb.TxManager.Transaction | pkg/zdb/zdb.go:88-115 | commit on success, rollback on error, panic or failing commit |
| ZdbLaws.FinishExactly | pkg/zdb/tx_manager.go:55-90 | the handles before the first failing one in the loop's order are finished once, all others untouched |
| ZdbLaws.RunKeeps | pkg/zdb/zdb.go:38-115 | every program keeps the invariant and touches no entry or handle of a transaction it cannot see |
| ZdbLaws.NoEntryLeft | pkg/zdb/zdb.go:88-115 | after the outermost Transaction the transaction map is what it was, whatever failed, and no handle has been finished twice |
| ZdbLaws.FinishedExactlyOnce | pkg/zdb/zdb.go:88-115 | if no commit or rollback itself fails, every handle begun is finished exactly once |
| ZdbLaws.AllOrNothing | pkg/zdb/zdb.go:88-115 | without nesting all handles are committed on success and all rolled back on error or panic, and the outcome is the function's |
| ZdbLaws.NestedCommitsOuter | pkg/zdb/zdb.go:91-112 | with nesting that fails: the outer transaction fails with its handle committed |
| ZdbFates.EndedExactly | pkg/zdb/zdb.go:98-112 | with no failures an ending scope finishes exactly the unfinished handles of its transaction, the way it ended |
| ZdbFates.FirstEndDecides | pkg/zdb/zdb.go:88-115 | in any program, nested or not, a handle is committed if and only if the first scope on its transaction to end after it was begun succeeded |
| ZdbFates.AllOrNothingExactly | pkg/zdb/zdb.go:88-115 | all-or-nothing holds if and only if no scope on the transaction found handles to finish and ended otherwise than the outermost one |
| ZdbLaws.FailedCommitStrands | pkg/zdb/zdb.go:98-109 | after a failing commit exactly the handles not yet reached are finished by nobody |
| ZdbLaws.ScopeEndsExactly | pkg/zdb/zdb.go:98-112 | how a scope ends whatever fails: the entry goes, the handles before the first failing one are committed or rolled back, all others stay, and the outcome is the function's unless a commit failed |
| ZdbLaws.CallsAnswer | pkg/zdb/zdb.go:38-115 | what Transaction and NewOrm answer to the function that calls them |

## Left out

- NewFromFloatWithExponent: exponents so large that the difference to the binary exponent, or the negation of it that the program shifts by, wraps around int32 are excluded; infinities and NaN, on which the program panics, are excluded.
- QuoRemContract: exponents whose differences leave int32 are excluded; there the program computes with a wrapped scale.
- DivRoundNearest: the same exponents are excluded, and those for which r.exp + precision leaves int32.
- MulExact: the sum of the exponents must fit int32, which is where the program panics.
- PowExact: the exponent n*exp must fit int32; in the model of Pow an overflow on the way is None.
- NegativePow: how far the rounded divisions on the way take the result from the true power is not bounded.
- RoundCashNearest: the division precision, a variable of the package, is a parameter of at least 2; the interval 15 is left out because its scale is computed with exclusive-or, which has no arithmetic contract.
- ModContract: negative division precision is excluded, the program's default being 16.
- GenSeq: calls are serialised in one process at a time and only the flag kept in the table is modelled; check and refill take no lock, and int64 wrap-around is out of reach of any run MarkGrowsSlowly bounds.
- NewV1: the clock reading, the random initial sequence and the hardware address are parameters.
- Lock: the object's Lock is called when the inner mutex is free; waiting for it is the protocol's business.
- EncodeByField: oneofs, maps, bytes, repeated messages and well-known types are left out; the program skips oneof fields, writes map keys in a form the decoder does not read, uses different base64 alphabets for bytes, and walks recursive message types without end.
- PopulateFieldValues: map fields and the check for a oneof already set are left out with the oneofs and maps of the encoder.
- ScalarRoundTrip: floating point is excluded; for float fields the round trip of a message assumes that Go's rendering of the values in it reads back.
- NoDeadlock: a client holds at most one key; goroutines that hold one key while locking another can deadlock and are not modelled. Go's read-write mutex also holds back new readers while a writer waits; the model lets them in, which only allows more runs.
- BeginTx: ids are assumed never to repeat.
- Transaction: goroutines inside the function and the statements run on the handles are not modelled; a handle is open, committed or rolled back.
- Nil coefficients of uninitialised decimals are modelled as zero.
- Fractional powers, Float64, Rat, JSON, gob and SQL conversions of decimals, and pkg/util/yuan_cent.go rest on library behaviour.
- Shift, Neg, Floor, Ceil, Min, Max, Sum and Avg of decimals: one exponent or coefficient change, or folds of Cmp, Add and Div.
- The ticker of StartCleanLoop, and the unlocked reads in the queue's Len and Wait.
- IsRegistered takes a read lock; it is modelled on the object but not in the interleaving.
- UUID versions 2 to 5, which rest on the host, hashes or random bytes, and the binary and SQL conversions.
- pkg/zconfig/config, pkg/util/base62.go, message setting bits, padding and string helpers, HTTP, Redis, MySQL, IM client calls, logging, tracing and ciphers.
