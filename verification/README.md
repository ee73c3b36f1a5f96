# Verified core of a secure messenger

A Dafny model of the parts of the messenger whose correctness is hardest to see from the code: Shamir
secret sharing over GF(256), the Double Ratchet session with its storage and locking, message packets and
envelopes, XChaCha20's subkey derivation, one-time codes, password backoff and the NTP consensus.
`dafny verify dfyconfig.toml` verifies the whole project.

## What is modelled

**Secret sharing** (`Fields.dfy`, `Lagrange.dfy`, `GF256.dfy`, `Shamir.dfy`). Bytes are `bv8`. The power and
log tables are built by the shift-and-reduce loop and shown to hold the powers of 2 and their logarithms;
2 has order 255, so exp and log are mutual inverses, the table-driven operations satisfy all field axioms,
and the product is the polynomial product modulo 0x11D. Polynomial algebra (roots, interpolation) is done
once for any field of characteristic two. The loops of the sharing service are methods proved against it:
any threshold of shares gives back the secret, one share fewer says nothing about it. The random
coefficients are inputs, so every statement holds for all of them.

**Double Ratchet** (`DoubleRatchet.dfy`, `RatchetObject.dfy` and the other `Ratchet*.dfy`). Keys are terms:
root, chain and message keys are free constructors, a Diffie-Hellman output is the unordered pair of two
private keys, and the authenticated cipher opens only under its key and header. `RatchetObject` is the mutable session
object; each method is proved to have the effect of a function on session values, and the theorems are about
those functions. `RatchetProtocol` and `RatchetRuns` put two sessions, the history of all chains and a network
that loses, delays, duplicates, reflects and forges into one system and prove an invariant over all its runs.
`RatchetOrigin` shows that nothing sealed without the shared secret is accepted. `RatchetDivergence` proves
that, among first deliveries, the two sides stay in step exactly when chains arrive in order,
`RatchetLateRun` is a concrete conversation in which they do not, and `RatchetAftermath` says what is lost
for good and what can still be read. `RatchetResults` says what one operation returns and when it refuses.
`RatchetReplay` and `RatchetBounds` are about one session under arbitrary
input; `RatchetSecrecy` and `RatchetRecovery` about what a thief of a session's keys can compute, of earlier
and of later messages. `RatchetEviction` is about the eviction queue and what forgetting it changes,
`RatchetCodec` about the storage form.

**Service layer** (`RatchetService.dfy`, `RatchetFlush.dfy`, `FriendLocks.dfy`). The database is a map, a commit
is one step. `RatchetFlush` is the write-back buffer as a step machine in which other threads send and receive
while a flush is under way. Locks are a state machine of any number of threads, with timeouts as events that
may happen at any moment.

**Packets and envelopes** (`Wire.dfy`, `Packets.dfy`, `Envelopes.dfy`). Bytes are written and read field by
field; the ciphers and signatures are a value that satisfies ideal laws (a toy suite shows that the laws are
consistent).

**Smaller cores.** `HChaCha20.dfy` and `XChaCha20.dfy` (masked integer arithmetic as in the source, on
`array`s in place), `Totp.dfy`, `Lockout.dfy`, `NtpConsensus.dfy`.

## Where the code differs from its description

- `decrypt` follows any changed header key before it looks for a stored key, so a late message of an older
  chain is read but takes the two sides out of step (`RatchetDivergence.SyncKeptIffInOrder`,
  `RatchetLateRun.LateMessageLosesNext`). The receiver derives no further key of the sender's current chain:
  over every later run it can read an undelivered message of that chain exactly if the key was derived by then
  (`RatchetDivergence.StillReadIff`, `RatchetAftermath.LaterReadableIff`), and the sender reads nothing of the
  receiver's new chain (`RatchetAftermath.SenderNeverReads`). The comment at that place promises that delayed
  messages remain readable without saying what they cost.
- The module promises that after theft of the current keys the next Diffie-Hellman step hides all later messages
  (services/double_ratchet.py:6-7). It hides what the session sends; the receiving chain that the step opens,
  and the message that brought the new key, stay readable (`RatchetRecovery.RatchetStaysOpen`,
  `RatchetRecovery.FutureSecrecy`).
- The list kept for first-in-first-out eviction is not updated when a stored key is used. At the cap, a list
  whose head names a used key lets the store grow (`RatchetBounds.StoreExceedsCap`): receiving message 1000,
  then message 0, then skipping two more reaches 1001 keys (`RatchetBounds.LongLivedExceeds`). The excess is at
  most the number of keys used or overwritten (`RatchetBounds.LongLivedBound`).
- The list is empty after loading. A loaded session with 1000 stored keys therefore raises as soon as it has to
  store one (`RatchetBounds.LoadedRaises`); load-step-save runs stay within the cap for that reason, and by
  evicting keys they have just stored. So the service is not one in-memory session per friend once something
  has to be evicted: `RatchetEviction.QueueMatters` gives the exact condition, and after message 1000 came
  first the service refuses message 1002 where the in-memory session reads it
  (`RatchetPersistence.FullStoreAnswers`).
- The message service loads only from the database and not from its write-back buffer: two sends without a
  flush in between, or with a flush whose write failed or comes too late, use the same message key. The only
  exception are two sends that both have to start the sending chain and draw different key pairs for it
  (`RatchetPersistence.UnflushedSendReusesKey`, `RatchetPersistence.KeyReusedIffWriteFailed`,
  `RatchetFlush.SendReuseIff`).
- A flush puts failed entries back over newer ones (`RatchetPersistence.ConcurrentMarkSurvives`).
- Lock cleanup is safe only for locks nobody has or has fetched; otherwise some continuation lets two threads
  hold the same friend (`FriendLocks.CleanupBreaksIff`, `FriendLocks.RacingCleanup`). A thread that cleans up a
  lock it has itself and enters that friend again can deadlock with a thread that took its locks in order
  (`FriendLocks.OwnCleanupDeadlock`).
- A restart keeps the password backoff exactly if the stored row it finds is as strict as memory was
  (`Lockout.RestartKeepsPaceIff`). The service only logs a failed write, so such restarts can be missing it
  (`Lockout.ForgottenGuessesAreFree`).
- The counter write of an accepted one-time code may fail silently, and a load whose self-test fails after the
  secret was installed leaves the counter at -1 although it reports failure. In both cases, and only then, the
  code is accepted again after a restart (`Totp.ReplayIff`, `Totp.LoadProtectsIff`). A fresh code whose digits
  equal those of a used step still in the window is refused (`Totp.FreshCode`).
- The key hint of a packet is the one header field that is not authenticated
  (`PacketTheorems.HintNotAuthenticated`).

## Model

| member | source | states |
|---|---|---|
| GFTables.BuildTables | services/shamir_service.py:26-35 | the loop fills all 512 power entries with the powers of 2 (period 255) and all 256 log entries with the discrete logarithms, 0 for byte 0 |
| GFTables.NextPower | services/shamir_service.py:31-33 | shift and reduce by 0x11D turns the i-th power into the next one |
| GF256.GeneratorOrder | services/shamir_service.py:26-35 | 2 to the k is 1 exactly when k is a multiple of 255 |
| GF256.ExpLogInverse | services/shamir_service.py:26-35 | exp and log are mutual inverses on nonzero bytes and exponents below 255 |
| GF256.MulAssociates | services/shamir_service.py:45-48 | the table-driven product is associative, zero operands included |
| GF256.MulDistributes | services/shamir_service.py:41-48 | the table-driven product distributes over xor |
| GF256.MulInverse | services/shamir_service.py:59-62 | a nonzero byte times its looked-up inverse is 1 |
| GF256.GFIsField | services/shamir_service.py:41-62 | xor, product and inverse satisfy every axiom of a field of characteristic two |
| GF256.MulIsPolyMul | services/shamir_service.py:45-48 | the table-driven product is polynomial multiplication modulo 0x11D, defined by shift and add |
| GF256.PowIsRepeated | services/shamir_service.py:51-56 | the looked-up power is the repeated product, for every base and exponent |
| LagrangeLoops.EvalPoly | services/shamir_service.py:65-71 | the accumulator loop computes the value of the polynomial |
| LagrangeLoops.MultiplyLinear | services/shamir_service.py:194-198 | the two-index update loop multiplies a coefficient list by X + r |
| LagrangeLoops.ExpandBasis | services/shamir_service.py:185-199 | the expanded numerator is the monic polynomial with the other points as roots, and the denominator is its value at the point |
| LagrangeLoops.LagrangeCoefficients | services/shamir_service.py:182-211 | for every x the loop returns the closed-form basis values, and it divides by zero exactly when two points coincide |
| Lagrange.EvalRootPolynomial | services/shamir_service.py:189-206 | the expanded coefficients evaluate to the product of the differences |
| Lagrange.DenominatorZero | services/shamir_service.py:199-209 | a point's denominator vanishes exactly when its coordinate is repeated |
| Lagrange.BasisAtPoints | services/shamir_service.py:182-211 | on the points themselves the basis values form the identity matrix |
| Lagrange.Interpolation | services/shamir_service.py:157-170 | values of a polynomial at no fewer distinct points than it has coefficients determine its value everywhere through the basis |
| LagrangeLoops.WeightedSum | services/shamir_service.py:164-166 | the loop computes the sum of share bytes times basis values |
| Shamir.SplitSecret | services/shamir_service.py:96-116 | each error exactly under its condition, otherwise share i has number i + 1 and holds, for every byte, the xor of the secret byte and the given random coefficients times powers of i + 1, products being polynomial products modulo 0x11D |
| Shamir.ReconstructSecret | services/shamir_service.py:143-170 | succeeds exactly for two or more shares of the expected length with distinct indices (or no bytes at all) and returns the Lagrange combination at 0; each error, division by zero included, exactly under its condition |
| Shamir.ReconstructionExact | services/shamir_service.py:65-71 | for every secret and all coefficients, any threshold or more shares with distinct indices in any order interpolate to the secret |
| Shamir.SplitThenReconstruct | services/shamir_service.py:105-116 | the same end to end for any choice of positions among the shares split_secret returns, whose indices are distinct |
| Shamir.PerfectSecrecy | services/shamir_service.py:107-114 | at any threshold - 1 distinct nonzero indices and any observed bytes, every secret byte is explained by exactly one choice of coefficients |
| Shamir.SharesHideSecret | services/shamir_service.py:105-116 | any threshold - 1 shares of a split are also those of every other secret of the same length, under exactly one choice of coefficients |
| RatchetObject.RatchetState.InitializeAsAlice | services/double_ratchet.py:94-124 | sets root and sending chain from the exchange, no receiving chain, counters zero, stored keys untouched |
| RatchetObject.RatchetState.InitializeAsBob | services/double_ratchet.py:126-154 | sets root and receiving chain from the exchange, no sending chain, counters zero, stored keys untouched |
| RatchetObject.RatchetState.StoreSkippedKey | services/double_ratchet.py:331-346 | stores under the slot and queues it; at the cap first drops what the queue's head names, and raises when the queue is empty |
| RatchetObject.RatchetState.StoreKeysUntil | services/double_ratchet.py:287-294 | the skip loop has the effect of the recursive skip on session values, in at most until - recvNum chain steps |
| RatchetObject.RatchetState.SkipRecvChain | services/double_ratchet.py:310-329 | keeps the rest of the old chain or refuses a distance over 1000, in at most 1000 chain steps |
| RatchetObject.RatchetState.DhRatchetStep | services/double_ratchet.py:156-184 | new receiving chain from the old private key, then new key pair and sending chain, counters reset, previous length recorded |
| RatchetObject.RatchetState.DecryptMessage | services/double_ratchet.py:253-308 | has the effect of Decrypt on session values for every header and ciphertext, raising included, in at most 2001 chain steps |
| RatchetObject.RatchetState.ReceiveMessage | services/double_ratchet.py:276-300 | uses and removes the stored key, or skips ahead and uses the next one, as Receive does on session values, in at most 1001 chain steps |
| RatchetObject.RatchetState.DecryptWithKey | services/double_ratchet.py:348-361 | opens exactly ciphertexts sealed under this key and header, and returns their plaintext |
| RatchetObject.RatchetState.EncryptMessage | services/double_ratchet.py:196-240 | creates the sending chain on first use, seals under the next message key with the header bound, counts the message; has the effect of Encrypt on session values |
| RatchetResults.InitAgreeIff | services/double_ratchet.py:94-154 | the two initialisations have one root and fitting chains if and only if the secrets are equal and each side has the public key of the other's private key (or both the same pair) |
| RatchetResults.EncryptOkIff | services/double_ratchet.py:196-240 | sending succeeds, lacks a chain or overflows a four-byte counter exactly under the stated conditions on the session |
| RatchetResults.PacketSent | services/double_ratchet.py:216-240 | a packet is sealed with the drawn nonce over plaintext and header, under the key at the chain's position; the header has the number, the previous length and the key pair in use, the drawn one for the first packet |
| RatchetResults.BatchNumbered | services/double_ratchet.py:196-240 | letter i of any batch goes out under number sendNum + i, the key i chain steps on and its own nonce |
| RatchetResults.StoredWhere | services/double_ratchet.py:331-346 | what every slot of the store holds after storing a key, and the queue: at 1000 the queue's head gives way, with an empty queue nothing changes |
| RatchetResults.TooFarIff | services/double_ratchet.py:276-329 | a decryption is refused for its distance if and only if more than 1000 keys of the old chain would have to be kept, or the message is not stored and more than 1000 past the position reached |
| RatchetResults.FailureMovesAlike | services/double_ratchet.py:276-308 | after a failed authentication the object is as after reading the right ciphertext under that header, so the key is used up |
| RatchetProtocol.StartSynced | services/double_ratchet.py:94-154 | matching initialisation of the two sides establishes the two-party invariant |
| RatchetProtocol.SkipToExact | services/double_ratchet.py:287-294 | with room in the store, skipping adds exactly the message keys in between under their slots and moves the chain to the target |
| RatchetProtocol.ReceiveCurrent | services/double_ratchet.py:276-300 | a first delivery on the current chain, late or early, decrypts to the plaintext and leaves exactly the undelivered keys stored |
| RatchetProtocol.KeepOldChain | services/double_ratchet.py:310-329 | before following a new key, storing up to the sender's previous length leaves exactly the undelivered keys of the old chain |
| RatchetProtocol.RatchetLands | services/double_ratchet.py:156-184 | the ratchet step derives the peer's chain and opens the next one, so the owner of chain e is in chain e + 2 receiving e + 1 |
| RatchetProtocol.ReceiveNewest | services/double_ratchet.py:261-308 | a first delivery from a new chain, whichever message it is, decrypts and puts the receiver one chain ahead |
| RatchetRuns.SendKeepsSynced | services/double_ratchet.py:196-240 | every send by either side, including Bob's first, keeps the invariant |
| RatchetRuns.FirstDelivery | services/double_ratchet.py:253-308 | every first in-order delivery that fits the store decrypts to the plaintext sent and keeps the invariant |
| RatchetRuns.DuplicateRejected | services/double_ratchet.py:261-300 | a message delivered before is refused in every synced state, also when its chain has been overtaken; on the current or newest chain it fails authentication |
| RatchetRuns.ForgeryRejected | services/double_ratchet.py:253-361 | in every synced state neither side accepts an unsealed ciphertext, one under a changed header, or anything sealed, under any header, with a key not built on the shared secret |
| RatchetOrigin.AcceptsOnlyBuilt | services/double_ratchet.py:253-308 | a session whose keys are built on a secret accepts only what was sealed under a key built on it, whatever the header |
| RatchetRuns.ReflectionRejected | services/double_ratchet.py:261-308 | a message sent back to its own sender is refused in every synced state |
| RatchetRuns.ReloadKeepsSynced | services/double_ratchet.py:414-451 | saving and loading a side keeps the invariant |
| RatchetRuns.RunKeepsSynced | services/ratchet_service.py:774-856 | every run of saved operations with first deliveries in any order inside a chain, replays of any message at any time, losses, forgeries, reflections and reloads keeps the two sessions in step |
| RatchetRuns.EveryDelivery | services/ratchet_service.py:774-856 | after any such run from matching initialisation, the next delivery decrypts to what was sent if it is the first of its message, and is refused if it is a replay, whatever else has arrived |
| RatchetProtocol.OutgrownChainUnreadable | services/double_ratchet.py:268-300 | a session whose root has grown past a chain's root and holds no stored key for a message of that chain cannot open it after a ratchet step |
| RatchetDivergence.LateMessageDecrypts | services/double_ratchet.py:268-280 | a skipped message of an older chain is read from its stored key, after a ratchet step onto its old key |
| RatchetDivergence.LateDeliveryEndsChain | services/double_ratchet.py:268-300 | no message of the sender's current chain is readable next whose key the receiver has not derived before the late message came or by it |
| RatchetDivergence.StillReadIff | services/double_ratchet.py:268-300 | with room in the store, the next undelivered message of the sender's current chain is read, to its plaintext, if and only if its key had been derived by then |
| RatchetAftermath.ReceiverNeverReads | services/double_ratchet.py:253-308 | over every later run of saved operations, whatever the receiver is given, it reads no message of that chain whose key it had not derived |
| RatchetAftermath.LaterReadableIff | services/double_ratchet.py:253-308 | with room in the store, an undelivered message of that chain can be read in some later run if and only if its key had been derived |
| RatchetAftermath.SenderNeverReads | services/double_ratchet.py:156-184 | over every later run with newly generated keys the sender reads no message of the receiver's new sending chain |
| RatchetDivergence.SyncKeptIffInOrder | services/double_ratchet.py:261-308 | first deliveries that fit the store always decrypt to the plaintext, and the two sides stay in step if and only if no newer chain was delivered before |
| RatchetLateRun.LateMessageLosesNext | services/double_ratchet.py:268-300 | a concrete eight-step conversation after which a late message is read and the next one, readable before, is lost |
| RatchetReplay.DecryptGuarded | services/double_ratchet.py:253-308 | whatever is offered, a session accepts only under a message key it has not used before, and stored keys stay unused and distinct |
| RatchetReplay.RunAcceptsFresh | services/ratchet_service.py:842-856 | along every run of saved operations the accepted ciphertexts have pairwise different keys |
| RatchetReplay.NoReplay | services/ratchet_service.py:842-856 | from either initialisation, no ciphertext is accepted twice and no message key used twice in any run |
| RatchetReplay.EncryptSendGuarded | services/double_ratchet.py:196-240 | whatever its state, a session seals only under a key it has not sealed under before |
| RatchetReplay.NoKeyReuse | services/ratchet_service.py:774-788 | from either initialisation, over any run of saved operations with arbitrary incoming messages, no two messages are sealed under the same key |
| RatchetSecrecy.ForwardSecrecy | services/double_ratchet.py:5-5 | from either initialisation, after any run of saved operations on arbitrary input, no key under which a message was sent or accepted can be computed from all keys in the session, whatever private keys are known |
| RatchetSecrecy.ExposedIff | services/double_ratchet.py:5-5 | of the message keys below the current root exactly the stored ones and those at or after the two chains' positions can be computed from the session |
| RatchetRecovery.HealsIff | services/double_ratchet.py:156-184 | after all keys and the private key were taken, the next step's root and sending chain stay computable if and only if the new private key or the peer's is known |
| RatchetRecovery.RatchetStaysOpen | services/double_ratchet.py:156-184 | the step's receiving chain and the message that brought the new key stay computable for whoever knew the session before the step |
| RatchetRecovery.FutureSecrecy | services/double_ratchet.py:6-7 | over every run after a later step with unknown private keys, no message the session sends is readable with what was taken; if that was the first step since, exactly the accepted messages not under renewed keys are |
| RatchetBounds.DecryptCapped | services/double_ratchet.py:331-346 | one decryption of a freshly loaded state, even one that fails, keeps at most 1000 stored keys |
| RatchetBounds.StoreNeverOverCap | services/double_ratchet.py:443-449 | over every load-step-save run the store never exceeds 1000 entries |
| RatchetBounds.RunBounded | services/double_ratchet.py:276-299 | along every run of one object, failing operations included, the queue names every stored key and exceeds the cap by no more than the keys lost |
| RatchetBounds.LongLivedBound | services/double_ratchet.py:331-346 | a long-lived object holds at most 1000 plus the keys consumed or overwritten so far, and never evicts from an empty queue |
| RatchetBounds.StoreExceedsCap | services/double_ratchet.py:337-346 | a store goes past the cap exactly when it is full, the slot is new and the queue's head names a key that is gone |
| RatchetBounds.LongLivedExceeds | services/double_ratchet.py:276-299 | three accepted messages bring a new session to 1001 stored keys |
| RatchetBounds.LoadedRaises | services/double_ratchet.py:337-339 | a freshly loaded session raises for want of something to evict exactly when its store is full and a key has to be stored |
| EvictionQueue.StoredEnds | services/double_ratchet.py:337-346 | after any series of stores a key is still there exactly when fewer evictions happened than its place in the queue, and then at that place less the evictions |
| RatchetEviction.DecryptAgrees | services/double_ratchet.py:253-308 | with room for its skipped keys a decryption gives the same result and state with and without the queue, in any state, failures included |
| RatchetEviction.QueueMatters | services/double_ratchet.py:276-346 | for a session with a queue and free slots ahead: it and its reloaded copy treat a header alike for every ciphertext if and only if nothing has to be evicted, failures before the first eviction aside |
| RatchetCodec.FromHexInverts | services/double_ratchet.py:390-412 | hexadecimal text parses back to the bytes and never contains a colon |
| RatchetCodec.HexAt | services/double_ratchet.py:390-412 | hexadecimal text has two lower-case digits per byte, the high half first |
| RatchetCodec.FromHexIff | services/double_ratchet.py:416-449 | a text parses as given bytes if and only if it is their hexadecimal text, in letters of either case |
| RatchetCodec.FromDecimalInverts | services/double_ratchet.py:406-411 | decimal text parses back to the number, for every number |
| RatchetCodec.DecimalAt | services/double_ratchet.py:406-411 | decimal text has the digits of the number in order, with no zero in front |
| RatchetCodec.ParseSlotInverts | services/double_ratchet.py:445-445 | splitting "hex:number" at the colon recovers key and number, so no two slots share a text |
| RatchetCodec.StoredForm | services/double_ratchet.py:384-412 | the dictionary has every counter as it is, every key in hexadecimal under its own name, and one entry "key:number" for every skipped key and no other |
| RatchetCodec.DeserializeSkipped | services/double_ratchet.py:443-449 | the loop fails exactly when some entry does not parse, and otherwise loads for every entry its slot and nothing else |
| RatchetCodec.Deserialize | services/double_ratchet.py:414-451 | returns a state the dictionary denotes, and fails only if it denotes none |
| RatchetCodec.SkippedRoundTrip | services/double_ratchet.py:406-412 | what the stored skipped keys denote is exactly the skipped keys |
| RatchetCodec.RoundTrip | services/double_ratchet.py:384-451 | a stored state with 32-byte keys loads as itself, every key, counter and skipped key, except for an empty eviction queue |
| RatchetPersistence.RatchetService.EncryptMessage | services/ratchet_service.py:774-788 | loads from the table only, without the queue, answers as the session does, and buffers the new state only on success |
| RatchetPersistence.RatchetService.DecryptMessage | services/ratchet_service.py:842-856 | loads from the table only, without the queue, answers as the session does, and buffers the new state only on success |
| RatchetPersistence.RatchetService.FlushDirtyStates | services/ratchet_service.py:142-168 | the loop writes every buffered state whose write succeeds to its row, keeps the others buffered, and counts the successes |
| RatchetPersistence.ServeRefinesSession | services/ratchet_service.py:774-788 | with nothing buffered for the friend, the service answers and moves as one in-memory session with its own eviction queue if and only if the operation does not depend on the queue; failures change nothing, other friends are untouched |
| RatchetPersistence.UnflushedSendReusesKey | services/ratchet_service.py:504-523 | two sends to one friend without a flush in between both succeed and have the same header and message key, unless each starts the sending chain with a key pair of its own, and only then; key and nonce are the same if and only if the drawn nonces are, too |
| RatchetPersistence.KeyReusedIffWriteFailed | services/ratchet_service.py:123-168 | with a flush in between, a second successful send uses the same key if and only if the friend's write failed and the session had a sending chain or both sends drew the same key pair; then only the drawn nonces differ |
| RatchetPersistence.FlushConserves | services/ratchet_service.py:148-165 | after a flush each buffered state is in the table or still buffered; it is dropped exactly when its row is gone and the write did not fail |
| RatchetPersistence.FlushFrame | services/ratchet_service.py:148-165 | a flush changes nothing of friends with nothing buffered |
| RatchetPersistence.ConcurrentMarkSurvives | services/ratchet_service.py:153-165 | in the effect of a flush with marks in between, a state buffered during it survives exactly when no different failed entry of the same friend is put back over it |
| RatchetFlush.FlushIsFlushedDuring | services/ratchet_service.py:142-168 | whatever sends, receives and writes come between taking the buffer and putting the failed entries back, the steps end in exactly that effect |
| RatchetFlush.RunTracked | services/ratchet_service.py:123-168 | through any flush steps and operations on other friends a buffered state is in its row or still buffered, and its row changes only when it is written |
| RatchetFlush.SendReuseIff | services/ratchet_service.py:123-168 | two sends with any flush steps and operations on other friends in between use the same key if and only if the first state was not yet written when the second send loaded, and the session had a sending chain or both drew the same key pair |
| RatchetPersistence.ServiceRefinesSessions | services/ratchet_service.py:774-856 | every run with a flush between operations on the same friend and room for skipped keys, failing writes included, answers exactly as one in-memory session per friend that keeps its eviction queue |
| RatchetPersistence.AnswersAlikeIff | services/ratchet_service.py:842-856 | whether the service answers a header as the in-memory session does, whatever the ciphertext, is decided by QueueIrrelevant on session and header |
| RatchetPersistence.FullStoreAnswers | services/ratchet_service.py:842-856 | a concrete run in which the service refuses a message for want of something to evict and the in-memory session reads it |
| NameOrder.Total | services/ratchet_service.py:334-334 | the order by lower-cased name and then name is total and irreflexive, whatever lower-casing does |
| NameOrder.LessIff | services/ratchet_service.py:334-334 | names are ordered by the first difference of their lower-cased forms, and only names with the same one by the first difference of the names |
| NameOrder.CanonicalCorrect | services/ratchet_service.py:334-334 | deduplicating and sorting gives a strictly ascending list of exactly the given names |
| FriendLocks.RunOrdered | services/ratchet_service.py:277-354 | in every reachable state threads hold and want locks in canonical order, and holders and owners agree |
| FriendLocks.NoWaitCycle | services/ratchet_service.py:333-354 | while re-entries find the threads' own locks, no reachable state contains a cycle of waiting threads, of any length and for any number of threads, whatever is cleaned up |
| FriendLocks.SomeThreadAdvances | services/ratchet_service.py:333-354 | in every state such runs reach, if a thread is busy some thread can go on without timing out |
| FriendLocks.FinishedHolds | services/ratchet_service.py:333-354 | a thread that gets through an acquisition has the locks of exactly the named friends, in canonical order, whatever others did meanwhile |
| FriendLocks.ReleasesAll | services/ratchet_service.py:348-352 | giving up or releasing leaves a thread with no lock and everybody else as they were |
| FriendLocks.ReentryWaitsIff | services/ratchet_service.py:277-288 | a re-entry, which looks the friend's lock up by name again, has to wait if and only if it does not find the thread's own lock |
| FriendLocks.SafeRunTabled | services/ratchet_service.py:375-397 | on runs whose cleanups remove only unused locks the dictionary has every lock in use, and every re-entry finds its own |
| FriendLocks.OwnCleanupDeadlock | services/ratchet_service.py:375-397 | after a thread cleaned up a lock it has, its re-entry and another thread can wait for each other |
| FriendLocks.CleanupExact | services/ratchet_service.py:375-397 | removing a lock keeps the dictionary in step with the locks in use if and only if nobody has it or has fetched it |
| FriendLocks.CleanupBreaksIff | services/ratchet_service.py:375-397 | in every state a safe run reaches, some safe continuation after a cleanup lets two threads hold the same friend if and only if somebody had the removed lock or had fetched it |
| FriendLocks.MutualExclusion | services/ratchet_service.py:277-288 | on every run whose cleanups remove only unused locks, at most one thread holds a lock for a friend |
| FriendLocks.RacingCleanup | services/ratchet_service.py:280-281 | a cleanup between fetch and acquire lets two threads hold the same friend |
| FriendLocks.LockTable.GetFriendLock | services/ratchet_service.py:255-259 | returns the friend's lock, creating a fresh one nobody holds only if there is none |
| FriendLocks.LockTable.AcquireFriendLocksOrdered | services/ratchet_service.py:333-354 | fails exactly when some named friend's lock is another thread's, leaving all holds as they were; otherwise the lock of every named friend is this thread's and has been entered exactly once more |
| FriendLocks.LockTable.ReleaseAll | services/ratchet_service.py:350-351 | exiting in reverse order undoes the entries, also of locks held before |
| Packets.DecryptWithWindow | crypto.py:199-224 | trying all six candidate times without stopping early returns the first opening, fails if none opens, and raises if a time does not fit its field |
| PacketTheorems.OuterRoundTrip | crypto.py:325-347 | for every flag combination the receiver reads back every field and rebuilds the sender's associated data, or misses its private key |
| PacketTheorems.ParsedRebuilds | crypto.py:352-398 | whatever packet is read, it is the layout of what was read, byte for byte, and the associated data is the bytes before the body without the hint |
| PacketTheorems.PacketBytes | crypto.py:298-347 | the bytes of a packet and its flag byte written out: flags, timestamp, hint, signature and wrapped key with their lengths, body |
| PacketTheorems.PacketContents | crypto.py:298-398 | an honest packet is read as its signature over timestamp, lifetime and plaintext, its wrapped session key, and the body sealed with the drawn nonce under the session key or the key of its thirty seconds; without a private key a packet for a friend is refused |
| PacketTheorems.EncryptOkIff | crypto.py:298-347 | encrypting fails exactly when timestamp, lifetime, signature or wrapped key does not fit its field |
| PacketTheorems.WindowCoversMinute | crypto.py:199-202 | every time within 60 seconds of now falls into one of the five buckets around now |
| PacketTheorems.WindowExact | crypto.py:178-224 | at a usable clock a body under the key of one secret and thirty seconds opens if and only if the secret and associated data are the same and those seconds are the outer timestamp's or at most two away from the clock's |
| PacketTheorems.SameBodyKeyIff | crypto.py:54-63 | two bodies for holders of a secret share their key if and only if the secrets and the thirty seconds are the same, two bodies for friends if and only if the drawn session keys are |
| PacketTheorems.UsableMeansInRange | crypto.py:54-60 | all candidate times fit their eight-byte field exactly for clocks from 60 up to the end of the range |
| PacketTheorems.SignerShown | crypto.py:428-466 | over the signed data the signer named is the first contact with the signing key, and a missing key shows as unverified, as does every hybrid signature where the receiver lacks the hybrid library; over other data every signature shows as unverified |
| PacketTheorems.SignatureNotLifted | crypto.py:400-466 | a signature put in front of any other body, by anyone who can seal one, never shows the signer's name |
| PacketTheorems.HonestPacket | crypto.py:298-425 | for every combination of options, every secret, private key and contact list of the reader and every clock: decrypting an honest packet gives the plaintext and signer exactly for the addressed friend or the holders of the secret and while in time (60 seconds, or the lifetime), and the right error otherwise |
| PacketTheorems.ChangedHeaderRejected | crypto.py:375-398 | an honest body under any other associated data does not open, by friend key or by time key |
| PacketTheorems.TamperedPacketRejected | crypto.py:352-398 | any packet that carries the body of an honest packet behind other flags, timestamp, signature or wrapped key is refused, by every receiver at every time |
| PacketTheorems.AadDetermines | crypto.py:324-332 | different flags, timestamps, signatures or wrapped keys give different associated data |
| PacketTheorems.HintNotAuthenticated | crypto.py:367-378 | replacing the key hint changes nothing the receiver reads |
| PacketTheorems.HintReadable | crypto.py:480-489 | a packet yields its sender's hint exactly when it is not addressed to a friend's key |
| Envelopes.ParseRatchet | models/envelope.py:67-127 | reading field by field with an offset accepts exactly the packets the format describes |
| Envelopes.RatchetParseOfBuild | models/envelope.py:41-127 | parsing what was built returns the envelope exactly when it has a sender and a ciphertext |
| Envelopes.RatchetBuildOfParse | models/envelope.py:41-127 | rebuilding what was accepted gives the packet byte for byte |
| Envelopes.RatchetBytes | models/envelope.py:41-65 | the bytes of a ratchet envelope written out, and when it can be built |
| Envelopes.ParsePqc | models/envelope.py:173-226 | reading field by field with an offset accepts exactly the packets the format describes |
| Envelopes.PqcParseOfBuild | models/envelope.py:149-226 | parsing what was built returns the envelope exactly when the payload can hold its tag |
| Envelopes.PqcBuildOfParse | models/envelope.py:149-226 | rebuilding what was accepted gives the packet byte for byte |
| Envelopes.PqcBytes | models/envelope.py:149-171 | the bytes of a post-quantum envelope written out, and when it can be built |
| Envelopes.AcceptedIff | models/envelope.py:67-226 | a packet is accepted if and only if it is what building some complete envelope gives |
| Envelopes.EnvelopesIdentified | models/envelope.py:229-246 | every built or accepted envelope is identified as its kind, and only packets with its first byte are |
| Envelopes.MessagePacketsAreNotEnvelopes | models/envelope.py:229-246 | no packet of encrypt_message is identified or parsed as either envelope |
| HChaCha20.MaskedQuarterRound | services/xchacha20_poly1305.py:88-111 | the masked in-place steps keep every entry below 2^32 and compute the quarter round of section 2.1 of RFC 8439 |
| HChaCha20.QuarterRoundIsRfc8439 | services/xchacha20_poly1305.py:88-111 | the quarter round is the twelve operations of section 2.1 of RFC 8439 |
| Words32.WordOperations | services/xchacha20_poly1305.py:80-111 | sums lose the carry out of 32 bits, exclusive or adds single bits modulo two, rotation by n puts the top n bits at the bottom |
| HChaCha20.CoreIsRounds | services/xchacha20_poly1305.py:143-154 | the core is eighty quarter rounds, four on the columns and four on the diagonals in turn |
| Words32.Rotl32IsRotation | services/xchacha20_poly1305.py:83-85 | shift, or and mask is rotation by the four distances used |
| HChaCha20.TwentyRounds | services/xchacha20_poly1305.py:143-154 | the loop applies ten column-and-diagonal double rounds |
| HChaCha20.CoreIsBijection | services/xchacha20_poly1305.py:143-154 | the twenty-round core is a bijection on 16-word states, with the inverse rounds as its inverse on both sides |
| XChaCha20.CoreInjective | services/xchacha20_poly1305.py:136-154 | two inputs reach the same final state if and only if key and nonce are the same |
| XChaCha20.CoreOfBytes | services/xchacha20_poly1305.py:114-154 | it starts from the little-endian words of "expand 32-byte k", key and nonce |
| XChaCha20.WordsRoundTrip | services/xchacha20_poly1305.py:137-158 | little-endian words read back as written |
| XChaCha20.Block | services/xchacha20_poly1305.py:131-158 | wrong lengths are refused, otherwise the subkey is the first and last row of the core's final state |
| XChaCha20.SealingUnderCore | services/xchacha20_poly1305.py:214-225 | sealing is the inner cipher's under the 32 bytes whose little-endian words are the first and last row of the core, with four zero bytes and the last eight nonce bytes as its nonce |
| XChaCha20.SealThenOpen | services/xchacha20_poly1305.py:214-259 | for any two keys, nonces and data of the right lengths, what was sealed opens if and only if the first and last rows of the core's final states, the last eight nonce bytes and the data agree |
| Hotp.TruncateIsRfc4226 | services/totp_service.py:125-131 | the code is the dynamic truncation of section 5.3 of RFC 4226, reduced to six digits |
| Hotp.CodeOfMessage | services/totp_service.py:125-131 | the code of a counter is that truncation of the HMAC of the secret over the eight bytes whose big-endian value is the counter |
| Hotp.TextDigits | services/totp_service.py:145-145 | the text of a code is its six decimal digits |
| Hotp.TextInjective | services/totp_service.py:145-145 | zero-padded six-digit texts are equal only for equal codes |
| Totp.VerifyExact | services/totp_service.py:161-192 | a tracked check accepts counter c exactly when c is the earliest within one step of the clock whose code is the text, and above the last accepted counter; then c is remembered and written, and anything else changes nothing |
| Totp.VerifyRaises | services/totp_service.py:161-176 | each error exactly under its condition, and anything but six digits is just wrong |
| Totp.StripExact | services/totp_service.py:164-164 | stripping takes off the white space at both ends and nothing else |
| Totp.FreshCode | services/totp_service.py:133-192 | a generated code one step either way passes untracked, and is accepted tracked exactly when its step is unused and no used step of the window has the same code |
| Totp.ShownCode | services/totp_service.py:124-145 | the code shown at a time is the six digits of the truncated HMAC of the secret over the number of whole 30 seconds so far |
| Totp.HonestLogin | services/totp_service.py:124-192 | the same for HMAC codes shown and entered up to 30 seconds apart |
| Totp.LoadedCounter | services/totp_persistence.py:28-101 | a successful load restores the stored counter; a failed one leaves the counter at -1 if some secret it found was long enough to install, and changes nothing otherwise |
| Totp.LoadSucceeds | services/totp_persistence.py:28-101 | when a load reports success, and whose first 20 bytes are then the secret: the password's, if its self-test passes, otherwise the global secret's |
| Totp.SelfTestIff | services/totp_persistence.py:47-51 | the self-test passes exactly when the code made at one step is found in the window of the other before a missing code raises |
| Totp.PromptSelfTest | services/totp_persistence.py:47-51 | in particular it passes when the clock moves at most one step and every code of the window exists |
| Totp.LoadProtectsIff | services/totp_persistence.py:28-101 | a load keeps used counters refused if and only if the last secret it installs passes its self-test and finds its counter, or none is installed |
| Totp.StepProtects | services/totp_persistence.py:135-167 | every check with a successful write, safe reload, clear and restart keeps all counters up to the last accepted one refused, now and after a restart |
| Totp.AcceptedIncrease | services/totp_service.py:176-191 | over every run of checks, clock values, reloads and restarts with successful counter writes and safe loads, accepted counters strictly increase |
| Totp.ReplayIff | services/totp_service.py:185-191 | after a restart and a load of the same secret a used code is accepted again if and only if its counter write had failed or the load was not safe |
| Totp.TotpService.SetSecret | services/totp_service.py:63-99 | a secret under 20 bytes is refused without change, otherwise its first 20 bytes are installed and the counter is -1 |
| Totp.TotpService.SetCounterPersistence | services/totp_service.py:40-52 | registers the callback and raises the counter to the stored one, never lowering it |
| Totp.TotpService.VerifyStep | services/totp_service.py:161-192 | the drift loop lets the first matching counter decide, and only acceptance changes the counter and its stored copy |
| Totp.TotpService.VerifyCode | services/totp_service.py:167-169 | the check at a clock reading is the check at its 30-second step, fractions of a second cut off |
| Totp.TotpService.LoadSecret | services/totp_persistence.py:28-87 | tries the password, then the global secret, each with its self-test, or the legacy secret, and restores the counter only on success |
| Lockout.StepPaced | services/auth_manager.py:132-163 | every failed try, pause and restart that finds a row as strict as memory keeps the failures so far at least their backoff apart, and the next verdict at least one more entry away |
| Lockout.RestartKeepsPaceIff | services/auth_manager.py:96-113 | a restart keeps every pace the machine has if and only if the row it finds is as strict as memory |
| Lockout.WorkingStorageKeeps | services/auth_manager.py:96-130 | with storage that works every restart of every run finds such a row |
| Lockout.NoRestartKeeps | services/auth_manager.py:115-130 | and a run without restarts needs no successful write at all |
| Lockout.GuessingTakes | services/auth_manager.py:155-234 | from any machine, k consecutive failed guesses with pauses and such restarts take at least the first k backoff entries with the last repeated: 2925 + 3600 (k - 13) seconds for k >= 13 |
| Lockout.NextVerdict | services/auth_manager.py:155-234 | the exact time of a wrong verdict and of the next one after any pause: the end of a running hard lockout from the fifteenth failure on, otherwise the table's delay after it is tried |
| Lockout.SuccessClears | services/auth_manager.py:203-214 | the master and duress passwords also wait, and then clear failures and lockout in memory and in the row |
| Lockout.TotalClosed | src/constants.py:125-127 | the closed form of that sum from the configured table |
| Lockout.BackoffTable | src/constants.py:125-125 | the entries of the table, its last one repeated |
| Lockout.BurstTakesExactly | services/auth_manager.py:216-234 | the bound is exact: k immediate guesses from a clean account take that long and no longer |
| Lockout.ForgottenGuessesAreFree | services/auth_manager.py:96-130 | if the row is never written, or never readable at the restarts, any number of guesses takes no time |
| Lockout.AuthManager.VerifyPassword | services/auth_manager.py:155-234 | sleeps the delay, then clears failures and lockout on the master or duress password and otherwise counts the failure, locking for an hour from the fifteenth on, and stores the result |
| Lockout.AuthManager.LoadLockoutState | services/auth_manager.py:96-113 | restores the stored row, or a clean account if there is none or it cannot be read |
| NtpConsensus.SortCorrect | ntp_client.py:135-135 | the list whose middle is taken is ascending with as many entries in every interval as the responses |
| NtpConsensus.MedianOfOrdered | ntp_client.py:135-135 | the median is the middle entry of the responses in any ascending arrangement, or the mean of the middle two |
| NtpConsensus.ConsensusExact | ntp_client.py:126-145 | the consensus times the number of responses strictly within half a second of the median is their sum; with none that close it is the median, and a single response stands for itself |
| NtpConsensus.MedianInside | ntp_client.py:135-135 | if more than half of the responses lie in an interval, so does the median, for even and odd numbers |
| NtpConsensus.MajorityBoundsConsensus | ntp_client.py:126-145 | if more than half of the responses are within eps of the true time, the consensus is within eps + 0.5, the all-outliers fallback included |
| NtpConsensus.HalfIsNotEnough | ntp_client.py:130-145 | with exactly half right the consensus can be arbitrarily far off |

## Left out

- Insides of HKDF, HMAC, AES-GCM, Poly1305, RSA, X25519, Kyber, Dilithium and Argon2: free constructors, parameters or values with ideal laws.
- Shamir.ReconstructSecret: share indices are bytes; an index outside 0..255, on which the source's table lookup raises, is not modelled.
- RatchetRuns.RunKeepsSynced: a failed operation changes no session, as in the service layer, which saves only after success; an object that is kept after a failure is covered by RatchetBounds only.
- RatchetEviction.QueueMatters: sessions in which a slot ahead is stored or queued already, which needs a key pair to come back, are not decided; DecryptAgrees covers them when there is room.
- RatchetDivergence.StillReadIff: requires room for the rest of the old chain; without it the code may raise before it finds the stored key, and the exact conditions for that are in RatchetBounds and RatchetEviction.
- RatchetRecovery.FutureSecrecy: an honest peer's key is one whose private half is unknown; that a thief who still knows the session's keys could send such a key of its own is the case HealsIff decides.
- RatchetCodec.Deserialize: parsing accepts the texts that serialization writes and upper-case hexadecimal; Python's tolerance for spaces, signs and underscores in such texts is not modelled.
- RatchetCodec.RoundTrip: JSON text, Base64 and encryption at rest between the two halves are not modelled.
- RatchetPersistence.RatchetService.EncryptMessage: one call is one step, as the friend's lock makes it; calls for different friends and the steps of a flush interleave in RatchetFlush.
- RatchetFlush.SendReuseIff: one flush at a time, and no older state of the friend is being written when the first message is sent.
- FriendLocks.MutualExclusion: cleanups of a lock that another thread has fetched, or that the cleaning thread itself holds, are excluded from the runs; CleanupBreaksIff shows that exactly these break the property.
- FriendLocks.NoWaitCycle: re-entries that find a lock other than the thread's own are excluded from the runs; ReentryWaitsIff says which these are, SafeRunTabled that they need a cleanup of a used lock, and OwnCleanupDeadlock shows that they can deadlock. In the state machine a lock retaken by such a re-entry is kept until the outermost release.
- FriendLocks.LockTable.AcquireFriendLocksOrdered: waiting is not modelled in the object, a lock of another thread counts as a timeout at once; the state machine has the waiting.
- PacketTheorems.HonestPacket: the text shown to the user (UTF-8 or Latin-1 decoding of the plaintext, fingerprints) is not modelled; timestamps are the integers the source converts them to.
- Envelopes.RatchetParseOfBuild: UTF-8 is any codec whose decoding is the exact inverse of its encoding.
- XChaCha20.Block: `& 0xFFFFFFFF` is written as the remainder modulo 2^32, and xor and or are defined bit by bit on integers.
- Totp.AcceptedIncrease: storing a new secret, which resets the stored counter on purpose, is not an event of the runs; the Base32 display and provisioning address are not modelled.
- Lockout.GuessingTakes: runs in which a restart finds a row weaker than memory are excluded; RestartKeepsPaceIff says that exactly these break the pace, and ForgottenGuessesAreFree how far. The clock never goes back; the refusing variant in key_manager.py, which never lets the table delay expire by waiting, is not modelled.
- NtpConsensus.MajorityBoundsConsensus: times are real numbers without rounding; socket queries and their errors are not modelled.
- Trust-chain certificates, delegation and trust levels: would add only easy members.
- User interface, event bus, task queue, guarded memory, anti-tampering, password change and recovery plumbing.
- Constant-time execution and wiping of memory.
