# Verification of the Paho MQTT C client

This project models the vendored Paho MQTT C client (`paho.mqtt.c/src`) and proves what its
protocol engine is for: messages in flight survive a crash, every QoS 2 exchange is accounted for,
commands are neither lost nor answered twice, packets read back as they were written.
`dafny verify dfyconfig.toml` checks all of it.

How the modules follow the program:

- **QoS 1 and 2 with persistence.** `Session` has the handlers as functions from a session to its
  micro-actions (store writes, packets, deliveries) and new lists, so that a crash can fall between
  any two micro-actions. `SessionInvariant`, `SessionSteps`, `SessionRestart` and `SessionRuns` carry
  the invariant through every run; `SessionSafety` says what a crash leaves, `SessionProgress` and
  `SessionAnswers` what does get done, and `SessionSending`, `SessionReceipt`, `SessionDelivery` and
  `SessionInbound` what the protocol promises. `ClientState` is the imperative client on linked lists of
  pointers, each method proved against its function.
  `StoreKeys`, `StoreBytes` and `StoreRuns` take the recovery down to text keys and packet bytes;
  `SortedInsert` and `RestoreOrder` say what order a restart produces.
- **The asynchronous engine.** `Engine` is the state machine whose steps are the bodies run under the
  mutexes, so that the id search, the check of the buffer and the queueing of one call interleave
  with everything else; `CommandEngine` is the same engine with the loops of the C code over the linked
  list of commands. `EngineConservation`, `EngineCallbacks`, `EngineOrder`, `EngineFlow`, `EngineDrops`,
  `EngineTokens` and `EngineTurns` prove invariants of all runs (`EngineEffects` and `EngineLists` hold
  the supporting lemmas); `EngineProgress` proves that commands start, are answered and are given up.
  `Handoff`, `HandoffRuns` and `MessageQueue` are the delivery queue, `ConnectFallback` the choice of
  server and version, `KeepAlive` the ping timer, `MessageIds` the id search.
- **Linked lists.** `LinkedList` is the doubly linked list with its cached cursor, tied to a ghost
  sequence; `ListUsers` has the callers that depend on where the cursor is left, `Pointers` relates
  lists of pointers to what they point to.
- **Codecs.** `Wire`, `Properties` and `PublishPacket`.
- **Arithmetic.** `Sha1Standard` (FIPS 180-4) with `Sha1Example`, `Sha1Context` (the code) and `Base64`.

The network, the clock, the application's callbacks and the store's key order are parameters or
nondeterministic steps. The store is a map, and store operations succeed.

Where the code does less than one might expect, the exact condition is proved:

- The order of in-flight messages survives a restart only if the gap back to the oldest id is the
  largest, a tie going to the smaller id (`RestartKeepsOrderIff`, `WideGapReorders`).
- A QoS 1 message is acknowledged before it is handed over; a crash in between loses it
  (`AcknowledgedIsHandedOverIff`, `CrashLosesAcknowledged`).
- Before version 5 a QoS 2 message is delivered again when a crash falls between its delivery and the
  erasure of its record (`DeliveriesBefore5`, `CrashRepeatsBefore5`).
- In version 5 a QoS 2 PUBLISH is recorded before it is accepted. When it is refused because of pending
  writes, or a crash follows, a restart takes it for a duplicate and it is never delivered
  (`DeliveriesInVersion5`, `CrashLosesInVersion5`, `RefusedThenRestartedLosesInVersion5`).
- A crash while a session is being cleaned can leave the PUBLISH record of a message whose PUBREL record
  is gone; its PUBLISH is then sent after its PUBREL (`CleanCutSafeIff`, `CutCleaningRepublishes`).
- Before version 5 a PUBLISH that is refused replaces the record of the message taken under its id, and a
  restart delivers the new contents (`RestoredInbound`).
- `writeInt4` uses signed division: from 2^31 on only multiples of 2^24 survive (`Int4ExactIff`), on the
  wire and in the store (`WireRoundTripIff`, `StoreRoundTripIff`, `ByteRecoveryOverRuns`).
- `MQTTPacket_VBIlen` is right only below 2^28 (`VbiLenExactIff`), `Base64_encodeLength` only below
  2^30 (`EncodeLengthExactIff`), the length in `SHA1_Final` only below 2^29 bytes
  (`PaddingStandardIff`).
- The id search does not end when no id was issued yet and none is free (`SearchNeverEnds`).
- The delivery queue is rebuilt in order only if its numbers do not go around 10^6 (`RestartExactIff`);
  if they do, the next message overwrites the record of another (`AroundTheLimitLoses`).
- `Base64_encode` reports a truncated encoding as complete when the room is a multiple of four
  (`EncodeInto`).
- After all servers failed, the automatic reconnect never goes back to the first one
  (`RetryStaysAtLastServer`).
- `MQTTAsync_addCommand` drops the oldest buffered message whenever it finds the buffer full. Two threads
  that pass the check in `MQTTAsync_send` together therefore drop a message even where
  `deleteOldestMessages` is 0 (`NothingDroppedIff`, `TwoCallsDropOne`). No callback tells the
  application (`EveryCommandInOnePlace`: a dropped command is not finished, and only finished ones are
  reported).
- The id search does not know the ids of calls that have not queued their command yet. It gives one out again
  exactly when it has come round to it, which cleaning the session can bring about at once
  (`HeldIdReturnedIff`, `OneTurnSharesIff`, `CleanSessionSharesId`).

## Model

| member | source | states |
|---|---|---|
| `SessionRuns.RecoveryRefinesMemory` | paho.mqtt.c/src/MQTTPersistence.c:180-333 | After any run of sends, acknowledgements, retries of any messages, packets received, cleaned sessions, restarts and crashes between any two store writes, restoring the store (keys in any order) gives exactly the outbound messages held in memory, with id, QoS, contents and next expected packet; every inbound exchange is still known. |
| `SessionRuns.RestartIsExactIff` | paho.mqtt.c/src/MQTTPersistence.c:180-333 | At every reachable state the restored outbound list is the list in memory, order included, if and only if the ids rise cyclically and the gap back to the oldest is the largest, a tie going to the smaller id. |
| `SessionRuns.RunKeeps` | paho.mqtt.c/src/MQTTProtocolClient.c:162-184 | Every move (a whole step, or a step cut by a crash followed by recovery) keeps the invariant that ties the two lists to the records of the store; so it holds in every reachable state. |
| `SessionSafety.CrashIsAtomic` | paho.mqtt.c/src/MQTTPersistence.c:508-548 | A step other than the cleaning of a session, cut after any number of its store writes, leaves a store from which recovery finds the outbound messages as before the step or as after it: a message being erased is still in flight or finished. |
| `SessionSafety.CleanCutPerMessageIff` | paho.mqtt.c/src/MQTTAsync.c:1359-1393 | Cleaning a session erases its records one by one: after a cut each message is as it was or gone, if and only if the cut does not separate its PUBREL record, already erased, from its PUBLISH record. |
| `SessionProgress.RetrySendsAgain` | paho.mqtt.c/src/MQTTProtocolClient.c:706-771 | At every reachable state, of the messages in flight exactly those that are due are sent again, in list order, each once: the PUBLISH marked as repeated while it waits for PUBACK or PUBREC, the PUBREL and no PUBLISH while it waits for PUBCOMP (section 4.4 of MQTT 3.1.1). |
| `SessionProgress.RestartSendsAgain` | paho.mqtt.c/src/MQTTProtocolClient.c:720-771 | After any run, crashes included, a client that restarts and reconnects sends, for every message it had in flight, exactly the one packet that message was waiting to have answered, and nothing else. |
| `SessionProgress.LastAcknowledgementEnds` | paho.mqtt.c/src/MQTTProtocolClient.c:407-445 | PUBACK for a QoS 1 message, PUBCOMP for one that awaits it, and in version 5 PUBREC with an error end the exchange: the message is out of the list, the others in order, its records and no others out of the store. |
| `SessionProgress.PubrecMovesOn` | paho.mqtt.c/src/MQTTProtocolClient.c:453-513 | The PUBREC a message awaits, without an error, puts the PUBREL on record, sends it, and leaves the message waiting for PUBCOMP; nothing else changes. |
| `SessionProgress.OtherAcknowledgementIgnored` | paho.mqtt.c/src/MQTTProtocolClient.c:407-445 | Any other acknowledgement, with an unknown id, for the other QoS or at the wrong moment, changes and sends nothing. |
| `SessionProgress.ExchangeLeavesNothing` | paho.mqtt.c/src/MQTTProtocolClient.c:162-184 | From any reachable state, PUBLISH and PUBACK, or PUBLISH, PUBREC and PUBCOMP, send exactly the packets of the exchange and leave lists and store as they were before it. |
| `SessionProgress.CleaningForgets` | paho.mqtt.c/src/MQTTAsync.c:3328-3352 | A cleaned session has nothing in flight, nothing half received and nothing on record. |
| `SessionSending.NeverPublishAfterPubrel` | paho.mqtt.c/src/MQTTProtocolClient.c:453-513 | Over every run, retries of any messages, cleaned sessions, crashes and restarts included, no PUBLISH with an id is sent after a PUBREL for it until that exchange has ended (section 4.3.3 of MQTT 3.1.1), provided no crash cuts the cleaning of a session between the two records of a message whose PUBREL is out. |
| `SessionSending.CleanCutSafeIff` | paho.mqtt.c/src/MQTTAsync.c:1359-1393 | That condition is exact: after a cut of the cleaning, the next re-sending of everything respects the order if and only if the cut separates the records of no message whose PUBREL is out. |
| `SessionSending.CutCleaningRepublishes` | paho.mqtt.c/src/MQTTAsync.c:1359-1393 | And it does fail, on a run from an empty store: PUBLISH, PUBREC, a session cleaned with the PUBREL record listed first and cut between the two removals, reconnect; the PUBLISH goes out after its PUBREL. |
| `SessionSending.SentFirstIsSafe` | paho.mqtt.c/src/MQTTAsync.c:1359-1393 | A store that lists every PUBLISH record before its PUBREL record may be cut anywhere. |
| `SessionReceipt.ReceiptIsExactlyOnce` | paho.mqtt.c/src/MQTTProtocolClient.c:305-399 | QoS 2 receipt with duplicates and refused writes: exchanges opened minus completed, minus those given up when a session was cleaned, is 1 exactly when the id is in inboundMsgs, else 0; deliveries equal completions before version 5 and openings in version 5. |
| `SessionAnswers.EveryPacketIsAnswered` | paho.mqtt.c/src/MQTTProtocolClient.c:305-399 | Over every run, crashes and restarts included: each acknowledgement was sent, each exchange opened and completed, and each message of any QoS handed over exactly as often as the packets that came in called for. |
| `SessionAnswers.AnsweredOnce` | paho.mqtt.c/src/MQTTProtocolClient.c:316-328 | Without a crash in the middle of a step: a QoS 0 message was handed over as often as it came, a QoS 1 message as often as it came while its PUBACK could be written; PUBACKs and QoS 1 deliveries equal those PUBLISHes, PUBRECs the writable QoS 2 PUBLISHes. |
| `SessionAnswers.AcknowledgedIsHandedOverIff` | paho.mqtt.c/src/MQTTProtocolClient.c:322-328 | QoS 1 with crashes: PUBACKs equal messages handed over plus the crashes between the two; so what is acknowledged is handed over if and only if there was no such crash. |
| `SessionAnswers.CrashLosesAcknowledged` | paho.mqtt.c/src/MQTTProtocolClient.c:322-328 | The failing run: a crash after the PUBACK and before the message is handed over; the server will not send it again. |
| `SessionAnswers.PubcompsAccountedFor` | paho.mqtt.c/src/MQTTProtocolClient.c:530-577 | PUBCOMPs equal the exchanges completed, plus the repeated PUBRELs for ids not known, plus the crashes between a PUBCOMP and the erasure of its record. |
| `SessionDelivery.DeliveriesBefore5` | paho.mqtt.c/src/MQTTProtocolClient.c:522-592 | Before version 5, over every run with crashes and restarts: deliveries equal completed exchanges plus the crashes between a delivery and the erasure of its record; so they are equal if and only if there was none. |
| `SessionDelivery.DeliveriesInVersion5` | paho.mqtt.c/src/MQTTProtocolClient.c:305-399 | In version 5, over every run with crashes and restarts: deliveries equal completed exchanges plus the open one plus those given up with a session, minus the restarts that find the record of an undelivered message; so nothing is lost if and only if no restart finds one. |
| `SessionDelivery.CrashRepeatsBefore5` | paho.mqtt.c/src/MQTTProtocolClient.c:557-577 | The failing run before version 5: a crash right after the delivery, and the PUBREL that follows delivers again: two deliveries, one completion. |
| `SessionDelivery.CrashLosesInVersion5` | paho.mqtt.c/src/MQTTPacket.c:151-166 | A failing run in version 5: a crash right after the record of a PUBLISH was written; the exchange completes later without a delivery. |
| `SessionDelivery.RefusedThenRestartedLosesInVersion5` | paho.mqtt.c/src/MQTTPacket.c:151-166 | Another: a PUBLISH refused for pending writes leaves its record, and after a restart its exchange completes without a delivery. |
| `SessionInbound.RestoredInbound` | paho.mqtt.c/src/MQTTPersistence.c:238-259 | Before version 5, after any run with crashes and restarts, a restart gives back every inbound message, with the contents of the last PUBLISH refused under its id since it was taken or restored, and those in memory if there was none; so it is the message in memory if and only if there was none or it was the same. |
| `SessionRestart.RestoredOutbound` | paho.mqtt.c/src/MQTTPersistence.c:180-333 | From a store that agrees with memory, recovery gives a permutation of the outbound list: the sorted list, rotated at the first largest gap. |
| `SessionRestart.RestoreScan` | paho.mqtt.c/src/MQTTPersistence.c:194-320 | What the loop over the keys does, for any key order and although it removes records on the way: sent records inserted by id, received records appended, exactly the orphan PUBREL records erased. |
| `SessionSteps.PublishStep` | paho.mqtt.c/src/MQTTProtocolClient.c:162-184 | Starting a QoS 1 or 2 publication keeps the invariant and writes only permitted records. |
| `SessionSteps.AckStep` | paho.mqtt.c/src/MQTTProtocolClient.c:407-445 | PUBACK, PUBREC (with and without an error code) and PUBCOMP, for known, unknown and unexpected ids, keep the invariant. |
| `SessionSteps.RetryStep` | paho.mqtt.c/src/MQTTProtocolClient.c:706-771 | Re-sending any of the outbound messages, in list order, keeps the invariant and erases nothing. |
| `SessionSteps.CleanStep` | paho.mqtt.c/src/MQTTAsync.c:3328-3352 | Cleaning the session erases every record and both lists and re-establishes the invariant. |
| `SessionSteps.PublishInStep` | paho.mqtt.c/src/MQTTProtocolClient.c:305-399 | An incoming PUBLISH of any QoS, accepted or refused, keeps the invariant. |
| `SessionSteps.PubrelInStep` | paho.mqtt.c/src/MQTTProtocolClient.c:522-592 | An incoming PUBREL for a known or unknown id keeps the invariant. |
| `SessionRuns.RestartStep` | paho.mqtt.c/src/MQTTPersistence.c:180-333 | A restart re-establishes the invariant and leaves no orphan PUBREL record for a reused id to meet. |
| `SessionInvariant.PermittedKeepsStore` | paho.mqtt.c/src/MQTTPersistence.c:412-497 | Single store writes of the permitted kinds keep every record well formed. |
| `ClientState.Client.StartPublishMessage` | paho.mqtt.c/src/MQTTProtocolClient.c:162-184 | On the linked list: a new message is appended through its pointer before it is stored and sent, and the contents of both lists and the actions are those of StartPublish. |
| `ClientState.Client.Puback` | paho.mqtt.c/src/MQTTProtocolClient.c:407-445 | Search through the cursor, then removal by pointer, perform exactly what LastAcknowledgementEnds and OtherAcknowledgementIgnored describe: the message and its records go, or nothing changes; the other list is untouched. |
| `ClientState.Client.Pubrec` | paho.mqtt.c/src/MQTTProtocolClient.c:453-513 | With the cursor reset first: error codes end the exchange, otherwise the PUBREL is recorded before it is sent and the message is changed in place; refines HandlePubrec. |
| `ClientState.Client.Pubcomp` | paho.mqtt.c/src/MQTTProtocolClient.c:601-649 | Refines HandlePubcomp on the linked list: only in the state that awaits it. |
| `ClientState.Client.Publish` | paho.mqtt.c/src/MQTTProtocolClient.c:305-399 | Performs, for QoS 0, 1, 2 and the invalid QoS 3, exactly the handler whose answers EveryPacketIsAnswered counts; a duplicate is inserted in front of the message found, which is then removed, and so takes its place. |
| `ClientState.Client.Pubrel` | paho.mqtt.c/src/MQTTProtocolClient.c:522-592 | Refines HandlePubrel on the linked list: delivery and removal before version 5, removal only in version 5. |
| `ClientState.Client.Retries` | paho.mqtt.c/src/MQTTProtocolClient.c:706-771 | The loop over the linked list performs what RetrySendsAgain describes: it re-sends exactly the messages that are due, as far as the connection lets it get. |
| `ClientState.Client.RestorePacketsFrom` | paho.mqtt.c/src/MQTTPersistence.c:180-333 | The loop over the keys with its in-place removals, sorted insertion into the linked list and the rotation at the end refine RestorePackets, for every key order. |
| `ClientState.Client.EndSession` | paho.mqtt.c/src/MQTTAsync.c:3328-3352 | Erases the records in store order and empties both lists. |
| `ClientState.FindMessage` | paho.mqtt.c/src/MQTTProtocolClient.c:417-423 | With distinct ids the cached search, and what the cursor then points to, are the message with that id. |
| `Pointers.ContentsInserted` | paho.mqtt.c/src/MQTTPersistence.c:379-393 | Sorted insertion of pointers by the key they point to is sorted insertion of what they point to. |
| `Pointers.ContentsWrapped` | paho.mqtt.c/src/MQTTPersistence.c:556-593 | The rotation of a list of pointers is the rotation of what they point to. |
| `Pointers.RemovePointer` | paho.mqtt.c/src/LinkedList.c:257-260 | Removal by content takes out exactly the element with that pointer. |
| `RestoreOrder.RestartKeepsOrderIff` | paho.mqtt.c/src/MQTTPersistence.c:556-593 | Sorted insertion in any order, then wrapMsgID, rebuilds the send order if and only if the ids rise cyclically and the gap from the newest back to the oldest is the largest, a tie going to the smaller id (section 4.6 of MQTT 3.1.1). |
| `RestoreOrder.HalfWindowKeepsOrder` | paho.mqtt.c/src/MQTTPersistence.c:556-593 | A sufficient condition visible to a caller: in-flight ids spanning at most half the id space restart in order. |
| `RestoreOrder.WideGapReorders` | paho.mqtt.c/src/MQTTPersistence.c:556-593 | Counterexample: 1 and 40000 in flight, in that order, always come back swapped. |
| `RestoreOrder.WrapIndexIsFirstLargest` | paho.mqtt.c/src/MQTTPersistence.c:556-581 | The search finds the first position whose gap is the largest. |
| `SortedInsert.InsertAllSorts` | paho.mqtt.c/src/MQTTPersistence.c:379-393 | Insertion of distinct keys gives an ascending list with exactly the inserted elements. |
| `SortedInsert.AscendingUnique` | paho.mqtt.c/src/MQTTPersistence.c:379-393 | A strictly ascending list is determined by its contents. |
| `SortedInsert.InsertionOrderIrrelevant` | paho.mqtt.c/src/MQTTPersistence.c:379-393 | The order in which the keys come does not matter. |
| `StoreRuns.ByteRecoveryOverRuns` | paho.mqtt.c/src/MQTTPersistence.c:180-333 | After any run, crashes included, whose messages can be sent, recovery from text keys and packet bytes, keys in any order, never fails and gives the outbound messages with their properties as read back, in their states and in the order of RestoreOrder; they are the messages in memory if and only if every message still in flight has only exact four-byte properties. |
| `StoreRuns.RunRecorded` | paho.mqtt.c/src/MQTTPersistence.c:412-497 | Over every run the store is what the writes of the trace make of an empty one, every write is permitted, and every PUBLISH record, re-sent or restored as it may be, holds a message that can be sent. |
| `StoreBytes.ByteRecovery` | paho.mqtt.c/src/MQTTPersistence.c:180-333 | The same from any store in bytes that agrees with memory; received packets may be stored with any contents. |
| `StoreBytes.SentDecodesIff` | paho.mqtt.c/src/MQTTPersistence.c:412-497 | The record of a message sent reads back as the message if and only if its four-byte properties are ones that writeInt4 writes exactly. |
| `StoreBytes.ReceivedDecodes` | paho.mqtt.c/src/MQTTPacket.c:151-166 | The record of a message received, stored as it came, reads back as the message that was parsed, whatever its properties. |
| `StoreBytes.PubrelDecodes` | paho.mqtt.c/src/MQTTPacket.c:636-660 | The record of a PUBREL reads back as its id. |
| `StoreBytes.PutBoth` | paho.mqtt.c/src/MQTTPersistence.c:412-497 | Writing a record keeps the bytes in step with the store. |
| `StoreBytes.TextsAgree` | paho.mqtt.c/src/MQTTPersistence.c:194-320 | Key by key, the byte-level recovery and the abstract one stay in agreement, removals included. |
| `StoreKeys.AtoiInvertsDecimal` | paho.mqtt.c/src/MQTTPersistence.c:819 | The number printed into a key is the number read back. |
| `StoreKeys.StemDecides` | paho.mqtt.c/src/MQTTPersistence.c:195-235 | A key has exactly its own stem as prefix, although some stems begin alike. |
| `StoreKeys.KeyTextInjective` | paho.mqtt.c/src/MQTTPersistence.c:454-480 | Different records have different keys; the id is recovered from the text. |
| `StoreKeys.KeysInTheStore` | paho.mqtt.c/src/MQTTPersistence.c:454-480 | The ten kinds of key as they appear in a store. |
| `MessageIds.AssignMsgId` | paho.mqtt.c/src/MQTTProtocolClient.c:78-98 | The search returns the first free id in cyclic order after the last issued one; 0 exactly when every other id is in use; the last id is updated only on success. The precondition is the exact condition under which it ends. |
| `MessageIds.SearchNeverEnds` | paho.mqtt.c/src/MQTTProtocolClient.c:80-93 | With last id 0 and none free, the loop visits used ids for ever. |
| `Wire.DecodersInvertEncoder` | paho.mqtt.c/src/MQTTPacket.c:1012-1056 | The unlimited decoder (the one in restorePacket) inverts the encoder on every length; the four-byte ones exactly below 2^28. |
| `Wire.VbiLenExactIff` | paho.mqtt.c/src/MQTTPacket.c:990-1003 | MQTTPacket_VBIlen is the number of bytes encoded if and only if the length is below 2^28. |
| `Wire.FourBytesIff` | paho.mqtt.c/src/MQTTPacket.c:297-316 | The encoder uses at most four bytes if and only if the length is below 2^28. |
| `Wire.Encode` | paho.mqtt.c/src/MQTTPacket.c:297-316 | The encoding loop, with and without a buffer, writes exactly the variable byte integer and nothing else. |
| `Wire.Decode` | paho.mqtt.c/src/MQTTPacket.c:325-351 | The socket decoder gives value and length, the read-too-many error, or interruption, for every input. |
| `Wire.DecodeBuf` | paho.mqtt.c/src/MQTTPacket.c:1012-1056 | MQTTPacket_VBIdecode over a buffer, including its treatment of a fifth byte. |
| `Wire.RestoreLength` | paho.mqtt.c/src/MQTTPersistence.c:341-360 | The remaining-length loop of restorePacket is the unlimited decoder. |
| `Wire.Int4ExactIff` | paho.mqtt.c/src/MQTTPacket.c:925-951 | writeInt4 then readInt4 gives the number back if and only if it is below 2^31 or a multiple of 2^24. |
| `Wire.ReadIntInverts` | paho.mqtt.c/src/MQTTPacket.c:359-366 | Two-byte integers round trip at any position. |
| `Wire.ReadLenStringInverts` | paho.mqtt.c/src/MQTTPacket.c:954-982 | Length-prefixed strings of up to 65535 bytes round trip at any position. |
| `Wire.Writer.WriteInt4` | paho.mqtt.c/src/MQTTPacket.c:925-937 | Appends the four bytes that signed C division and remainder give. |
| `Wire.Writer.WriteLenString` | paho.mqtt.c/src/MQTTPacket.c:954-959 | Appends the length and the bytes. |
| `Wire.Writer.WriteVbi` | paho.mqtt.c/src/MQTTPacket.c:297-316 | Appends the variable byte integer and reports its size. |
| `Properties.PropertiesRoundTripIff` | paho.mqtt.c/src/MQTTProperties.c:282-325 | Reading what was written, wherever it stands and whatever follows, stops right after it and gives the same list if and only if every four-byte integer is one that writeInt4 writes exactly (section 2.2.2 of MQTT 5.0). |
| `Properties.PropertyRoundTrip` | paho.mqtt.c/src/MQTTProperties.c:238-279 | The same for a single property of each of the seven types. |
| `Properties.IdentifiersOnTheWire` | paho.mqtt.c/src/MQTTProperties.c:28-61 | What the reader makes of bytes after each of the 27 identifiers of section 2.2.2.2 of MQTT 5.0, and that no other identifier is followed by a value. |
| `Properties.ReadPropertiesLoop` | paho.mqtt.c/src/MQTTProperties.c:282-325 | The reading loop with its remaining-length count refines the recursive reader on every input, good or malformed. |
| `Properties.WriteProperties` | paho.mqtt.c/src/MQTTProperties.c:208-235 | The pointer advances by exactly MQTTProperties_len; the returned value counts the length field as one byte. |
| `Properties.WriteProperty` | paho.mqtt.c/src/MQTTProperties.c:165-205 | Writes exactly the bytes of the property, for every type. |
| `Properties.TotalIsLength` | paho.mqtt.c/src/MQTTProperties.c:102-162 | The running length is the number of bytes the list takes. |
| `Properties.LenIsBytesWritten` | paho.mqtt.c/src/MQTTProperties.c:89-99 | MQTTProperties_len is the number of bytes written, length field included. |
| `Properties.PropertyList.Add` | paho.mqtt.c/src/MQTTProperties.c:102-162 | Appends the property and keeps the running length equal to the sum of encoded sizes; unknown identifiers are refused and change nothing. |
| `Properties.PropertyList.Copy` | paho.mqtt.c/src/MQTTProperties.c:409-425 | The copy has the same properties and length. |
| `PublishPacket.WireRoundTripIff` | paho.mqtt.c/src/MQTTPacket.c:835-898 | The receiver of what send_publish writes recovers topic, id, flags, properties and payload and leaves the rest unread, if and only if the body is below 2^28 bytes and every four-byte property is exact. |
| `PublishPacket.StoreRoundTripIff` | paho.mqtt.c/src/MQTTPersistence.c:341-370 | restorePacket recovers the same message from the stored bytes, whatever its length, if and only if its four-byte properties are exact. |
| `PublishPacket.RestoreIsParse` | paho.mqtt.c/src/MQTTPersistence.c:341-370 | A stored packet is parsed as it was when it came from the network. |
| `PublishPacket.PubrelRoundTrip` | paho.mqtt.c/src/MQTTPacket.c:636-660 | The stored PUBREL gives its id back. |
| `PublishPacket.ParseInvertsBody` | paho.mqtt.c/src/MQTTPacket.c:553-594 | Parsing inverts the body, for every QoS and both protocol families. |
| `PublishPacket.HeaderRoundTrip` | paho.mqtt.c/src/MQTTPacket.c:190-206 | The four fields of the fixed header byte are recovered. |
| `PublishPacket.PublishOnTheWire` | paho.mqtt.c/src/MQTTPacket.c:553-594 | A PUBLISH given byte by byte as in section 3.3 of MQTT 3.1.1 is parsed to its flags, QoS, topic, id and payload. |
| `PublishPacket.SendPublish` | paho.mqtt.c/src/MQTTPacket.c:835-898 | The method that fills the separate buffers produces exactly the packet. |
| `PublishPacket.Assemble` | paho.mqtt.c/src/MQTTPacket.c:250-277 | Header, remaining length and buffers are joined into the packet that is also stored. |
| `LinkedList.List.AppendNoMalloc` | paho.mqtt.c/src/LinkedList.c:69-87 | Appends to the sequence; prev, next, first, last and count agree with it; the cursor is kept. |
| `LinkedList.List.Insert` | paho.mqtt.c/src/LinkedList.c:107-133 | Inserts before the given element, or appends; the cursor is kept. |
| `LinkedList.List.FindItem` | paho.mqtt.c/src/LinkedList.c:154-192 | Null exactly when nothing matches; with distinct keys, or when the cursor does not match, the cached search finds what a linear scan finds; a hit moves the cursor. |
| `LinkedList.List.ScanFor` | paho.mqtt.c/src/LinkedList.c:154-192 | The linear scan returns the first match. |
| `LinkedList.List.Unlink` | paho.mqtt.c/src/LinkedList.c:201-236 | Removes exactly one match, the one under the cursor or else the first; the links stay consistent; a cursor on the removed element moves to the next one, any other cursor stays. |
| `LinkedList.List.DetachHead` | paho.mqtt.c/src/LinkedList.c:268-287 | Removes and returns the first element, or NULL from an empty list; a cursor on it moves to the next one. |
| `LinkedList.List.PopTail` | paho.mqtt.c/src/LinkedList.c:306-324 | Removes and returns the last element, or NULL from an empty list; a cursor on it moves to the one before. |
| `LinkedList.List.Empty` | paho.mqtt.c/src/LinkedList.c:359-374 | Leaves the empty sequence. |
| `LinkedList.List.NextElement` | paho.mqtt.c/src/LinkedList.c:411-415 | From null to the first element, and from each element to the next. |
| `LinkedList.List.RotateAt` | paho.mqtt.c/src/MQTTPersistence.c:582-591 | The pointer surgery is a rotation of the sequence. |
| `ListUsers.InsertInOrder` | paho.mqtt.c/src/MQTTPersistence.c:379-393 | The loop over the linked list is sorted insertion. |
| `ListUsers.WrapMsgID` | paho.mqtt.c/src/MQTTPersistence.c:556-593 | Search and surgery together rotate the list at its largest gap. |
| `ListUsers.CheckPendingWrites` | paho.mqtt.c/src/MQTTAsync.c:1648-1668 | Removes exactly the finished entries, in order, relying on where the removal leaves the cursor. |
| `ListUsers.UnfinishedExact` | paho.mqtt.c/src/MQTTAsync.c:1648-1668 | Which entries are left: those not finished, each as often as before. |
| `EngineConservation.EveryCommandInOnePlace` | paho.mqtt.c/src/MQTTAsync.c:1841-2232 | Over every run each accepted SUBSCRIBE, UNSUBSCRIBE or PUBLISH is in exactly one of queue, responses, finished and dropped-as-oldest, and at most one of its success and failure callbacks has fired, only once it is finished. |
| `EngineConservation.StepConserves` | paho.mqtt.c/src/MQTTAsync.c:1730-1838 | Every step keeps that balance. |
| `EngineCallbacks.ExactlyOneCallback` | paho.mqtt.c/src/MQTTAsync.c:2160-2230 | A command accepted with the success and failure callbacks of its client's version gets exactly one call when it is finished and none otherwise, over every run: calls equal finishes, which are 0 or 1. |
| `EngineCallbacks.NoCallbackWithoutCause` | paho.mqtt.c/src/MQTTAsync.c:4650-4711 | Over every run, a success is reported only for a written QoS 0 message or an acknowledgement with the command's id (with an error code only where no failure can be reported), a failure only for a failed write, an acknowledgement with an error, or a client whose commands are given up. |
| `EngineProgress.AcknowledgementFinishes` | paho.mqtt.c/src/MQTTAsync.c:4650-4711 | With ids apart, an acknowledgement other than a PUBREC without error takes exactly the client's response with its token off the list, others in order, finishes it, and makes its one call: a success unless there was an error that can be reported. |
| `EngineProgress.OtherAcknowledgement` | paho.mqtt.c/src/MQTTAsync.c:4650-4711 | Any other acknowledgement leaves the responses alone and finishes nothing. |
| `EngineProgress.WriteFinishes` | paho.mqtt.c/src/MQTTAsync.c:1730-1838 | A write that completes or fails finishes exactly the client's flagged QoS 0 message, with success if and only if it completed. |
| `EngineProgress.SentThenAnswered` | paho.mqtt.c/src/MQTTAsync.c:2842-2960 | From any reachable state: a command taken from the queue and sent waits through whatever does not settle it, and its acknowledgement, with ids apart, finishes it once with the only call it ever has. |
| `EngineProgress.SentThenWritten` | paho.mqtt.c/src/MQTTAsync.c:1730-1838 | The same for a QoS 0 message whose write was interrupted and later completes or fails. |
| `EngineProgress.ProcessingDoes` | paho.mqtt.c/src/MQTTAsync.c:1894-2230 | What becomes of the command taken off the queue: started, its id in flight, and then finished with the right call or left waiting, by kind and by the result of its write. |
| `EngineProgress.SomethingStarts` | paho.mqtt.c/src/MQTTAsync.c:1852-1891 | Whenever a client's first command has nothing in its way, some command can be processed. |
| `EngineProgress.StartsOnlyWhenClear` | paho.mqtt.c/src/MQTTAsync.c:1863-1888 | Over every run a SUBSCRIBE, UNSUBSCRIBE or PUBLISH starts only as its client's first command, while the client is connected, not connecting, without a pending write, and below its limits. |
| `EngineProgress.DestroyGivesUp` | paho.mqtt.c/src/MQTTAsync.c:2499-2551 | Destroying a client finishes every command it has in either list and reports the failure; those of other clients stay. |
| `EngineProgress.CleaningGivesUp` | paho.mqtt.c/src/MQTTAsync.c:3328-3352 | Cleaning a session finishes every command that waits for a response, with its failure, and forgets what is in flight. |
| `EngineProgress.ControlIsQueued` | paho.mqtt.c/src/MQTTAsync.c:1430-1447 | A CONNECT or internal DISCONNECT is first in the queue afterwards, an application's DISCONNECT last; no other command is lost. |
| `EngineOrder.CommandsStartInOrder` | paho.mqtt.c/src/MQTTAsync.c:1852-1894 | Over every run the commands of one client start in the order they were accepted, and none still queued was accepted before a started one. |
| `EngineFlow.InFlightNeverAboveLimit` | paho.mqtt.c/src/MQTTAsync.c:1865-1880 | With limits of at most m, no more than m messages of a client are ever in flight (section 4.9 of MQTT 5.0). |
| `EngineFlow.StepKeepsInFlight` | paho.mqtt.c/src/MQTTAsync.c:1865-1880 | No step raises the in-flight count above maxInflightMessages. |
| `EngineFlow.OfflineBufferBounded` | paho.mqtt.c/src/MQTTAsync.c:1479-1511 | noBufferedMessages is the number of queued PUBLISH commands of the client; with create options it is at most the larger of maxBufferedMessages and the number restored at start, however sends interleave. |
| `EngineDrops.NothingDroppedIff` | paho.mqtt.c/src/MQTTAsync.c:1479-1511 | Over every run one message is dropped for every PUBLISH that is queued and finds the buffer full, and none otherwise; so none is dropped if and only if every PUBLISH, when it is queued after its check, still finds the buffer below the limit. |
| `EngineDrops.OneCallAtATimeDropsNothing` | paho.mqtt.c/src/MQTTAsync.c:4258-4263 | With deleteOldestMessages 0 and at most one call per client between its check and its queueing, nothing is ever dropped. |
| `EngineDrops.TwoCallsDropOne` | paho.mqtt.c/src/MQTTAsync.c:4260-4263 | The failing run: two threads pass the check before either queues; the first message is dropped although deleteOldestMessages is 0. |
| `EngineTurns.IdsNeverShared` | paho.mqtt.c/src/MQTTAsync.c:3960-4001 | If no session is cleaned while a call of its client is between id search and queueing, and fewer than 65535 ids are gone through meanwhile, then after any run the ids in flight of a client are pairwise distinct, none belongs to a queued command, and an acknowledgement finds only the command it is for. |
| `EngineTurns.HeldIdReturnedIff` | paho.mqtt.c/src/MQTTAsync.c:3977-3994 | After any run, an id search returns the id of a call still under way if and only if the ids gone through since that call's own search make a whole number of turns of 65535; ids in use count, and cleaning a session counts as going on to the largest id. |
| `EngineTurns.OneTurnSharesIff` | paho.mqtt.c/src/MQTTAsync.c:3977-3994 | The bound of IdsNeverShared is exact: on such runs the next search returns the id of a call under way if and only if it completes exactly one turn. |
| `EngineTurns.IdsApartIff` | paho.mqtt.c/src/MQTTAsync.c:3960-4001 | Over every run, ids are apart in every state (messages in flight, queued commands, responses, calls under way) if and only if no search comes round to the id of a call still under way. |
| `EngineTurns.HeldIdIsShared` | paho.mqtt.c/src/MQTTAsync.c:3960-4001 | What follows when a held id is given out: both calls, PUBLISH of QoS 1 or 2, SUBSCRIBE or UNSUBSCRIBE, can go on and leave two queued commands with one id; messages need room in the buffer. |
| `EngineTurns.OneCallAtATimeNeverShares` | paho.mqtt.c/src/MQTTAsync.c:3960-4001 | With at most one call per client under way, no id is shared after any run, however often sessions are cleaned. |
| `EngineTurns.CleanSessionSharesId` | paho.mqtt.c/src/MQTTAsync.c:3328-3340 | Otherwise it happens, with every call made on a connected client: a SUBSCRIBE is given id 1, the connection is lost and the session cleaned, the client reconnects and the next SUBSCRIBE is given 1 again; both are queued. |
| `CommandEngine.Async.Choose` | paho.mqtt.c/src/MQTTAsync.c:1852-1891 | The loop over the linked list, with its list of ignored clients, finds the first command that is ready and its client's earliest; it finds none only if no client's earliest command is ready. |
| `CommandEngine.Async.MayProcess` | paho.mqtt.c/src/MQTTAsync.c:1863-1888 | The tests of the loop decide readiness: connection and socket, message ids left, flow control. |
| `CommandEngine.Async.ProcessCommand` | paho.mqtt.c/src/MQTTAsync.c:1841-2232 | Refines Process on a chosen command, detached from the linked list by its address, or changes nothing. |
| `CommandEngine.Async.AddCommand` | paho.mqtt.c/src/MQTTAsync.c:1420-1523 | On the linked list: appended, and for a PUBLISH counted or paid for with the client's oldest one, found by a scan and detached; refines Accept. |
| `CommandEngine.Async.ReserveId` | paho.mqtt.c/src/MQTTAsync.c:3960-4001 | The id search over the three lists reserves the first free id, or refuses the call when every id but the last one issued is in use. |
| `CommandEngine.Async.CheckBuffer` | paho.mqtt.c/src/MQTTAsync.c:4260-4263 | The check refuses a message exactly when queueing it now would drop one and the client is not to delete the oldest; passed while no other call of the client is past its check, it keeps room for every message that has passed; ids stay apart. |
| `CommandEngine.Async.QueueCommand` | paho.mqtt.c/src/MQTTAsync.c:4285-4330 | One message is dropped if a PUBLISH finds the buffer full and none otherwise; where there is room for every message that has passed its check, none is dropped and there still is; ids stay apart. |
| `CommandEngine.Async.AddControl` | paho.mqtt.c/src/MQTTAsync.c:1430-1447 | On the linked list: CONNECT and internal DISCONNECT go to the head and replace an equal command, found by ListRemoveItem through the cursor; refines AcceptControl. |
| `CommandEngine.Async.Written` | paho.mqtt.c/src/MQTTAsync.c:1730-1838 | Performs what WriteFinishes describes: only the flagged command, only if still waiting, is answered. |
| `CommandEngine.Async.Acknowledged` | paho.mqtt.c/src/MQTTAsync.c:4650-4711 | Performs what AcknowledgementFinishes and OtherAcknowledgement describe: the first response of the client with the id is answered. |
| `CommandEngine.Async.FreeAllResponses` | paho.mqtt.c/src/MQTTAsync.c:2452-2496 | Refines FreeResponses: failure callbacks in order, in-flight messages forgotten, other clients untouched. |
| `CommandEngine.Async.FreeCommands` | paho.mqtt.c/src/MQTTAsync.c:2500-2551 | The loop that keeps one element ahead of the one it may detach takes out exactly the client's commands, in order, with their failure callbacks, and leaves the others in order. |
| `CommandEngine.Async.DestroyClient` | paho.mqtt.c/src/MQTTAsync.c:2499-2551 | Refines Destroy: all commands of the client are finished, other clients untouched. |
| `HandoffRuns.InOrderForALifetime` | paho.mqtt.c/src/MQTTAsync.c:3396-3462 | With fewer than a million arrivals, messages taken followed by messages queued are the messages that came in, in order, through any refusals and restarts, for any key order. |
| `HandoffRuns.EverythingIsTaken` | paho.mqtt.c/src/MQTTAsync.c:2743-2762 | Once the callback agrees, everything queued is taken in order, and then a message that comes in is taken at once. |
| `HandoffRuns.HandedOverInOrder` | paho.mqtt.c/src/MQTTAsync.c:2743-2762 | Without restarts the same holds with no condition at all. |
| `HandoffRuns.HandedOverAcrossRestarts` | paho.mqtt.c/src/MQTTPersistence.c:788-838 | With restarts it holds as long as no restart finds a queue whose numbers go around the limit. |
| `HandoffRuns.RestartExactIff` | paho.mqtt.c/src/MQTTPersistence.c:788-838 | At every such state the rebuilt queue equals the queue if and only if it is no longer than the counter plus one. |
| `HandoffRuns.AroundTheLimitSwaps` | paho.mqtt.c/src/MQTTPersistence.c:649-650 | Counterexample, on a run from an empty store: after 999998 messages queued and taken, two messages queued across the limit come back swapped, whatever the key order. |
| `HandoffRuns.AroundTheLimitLoses` | paho.mqtt.c/src/MQTTPersistence.c:822 | And then: the next message queued takes a number still in use, overwrites its record, and a second restart has lost that message. |
| `HandoffRuns.ArrivalGuardExact` | paho.mqtt.c/src/MQTTPersistence.c:649-678 | Queueing keeps store and queue in agreement if and only if fewer than the limit are queued. |
| `HandoffRuns.CrashAfterAcceptRepeatsOne` | paho.mqtt.c/src/MQTTAsync.c:2751-2758 | A crash between the callback and the removal of the record repeats that one message and changes nothing else. |
| `Handoff.RestoreExactIff` | paho.mqtt.c/src/MQTTPersistence.c:767-838 | From a store that matches, any key order rebuilds the queue if and only if its sequence numbers rise. |
| `MessageQueue.Queue.ProcessPublication` | paho.mqtt.c/src/MQTTAsync.c:3396-3462 | On the linked list: delivered at once only if nothing is queued; taken followed by queued stays equal to the arrivals, and the store in agreement with the queue while fewer than the limit are queued. |
| `MessageQueue.Queue.DeliverFirst` | paho.mqtt.c/src/MQTTAsync.c:2743-2762 | On the linked list: a refused message stays at the head; taken followed by queued stays equal to the arrivals, and the store in agreement. |
| `MessageQueue.Queue.Persist` | paho.mqtt.c/src/MQTTPersistence.c:615-692 | The record goes under the next number, which goes around at the limit. |
| `MessageQueue.Queue.InsertInSeqOrder` | paho.mqtt.c/src/MQTTPersistence.c:767-780 | The loop over the linked list is sorted insertion by sequence number. |
| `MessageQueue.Queue.RestoreMessageQueue` | paho.mqtt.c/src/MQTTPersistence.c:788-838 | The loop over the keys rebuilds queue and counter, ignoring keys of other kinds. |
| `ConnectFallback.EveryServerAndVersionOnce` | paho.mqtt.c/src/MQTTAsync.c:2235-2291 | For any mixture of immediate and late failures: each server and version once, in order, 3.1.1 before 3.1, never past the list; one failure report, exactly after 2*max(1,n) attempts by default or max(1,n) with a fixed version. |
| `ConnectFallback.RoundEnds` | paho.mqtt.c/src/MQTTAsync.c:563-572 | Every event brings the end of the round closer. |
| `ConnectFallback.RetryStaysAtLastServer` | paho.mqtt.c/src/MQTTAsync.c:2327-2340 | After a round that failed, the automatic reconnect tries only the last server, once per version. |
| `ConnectFallback.Connecting.ProcessConnect` | paho.mqtt.c/src/MQTTAsync.c:1928-1974 | In a round that follows the plan it makes exactly the attempt whose turn it is, and stays on the plan, whether the attempt fails at once or not. |
| `ConnectFallback.Connecting.NextOrClose` | paho.mqtt.c/src/MQTTAsync.c:2235-2291 | In a round that follows the plan another attempt is queued if and only if the round is not complete; otherwise the failure is reported. |
| `KeepAlive.SilenceClosesSession` | paho.mqtt.c/src/MQTTProtocolClient.c:656-697 | With checks at most d apart and no pending writes, a client that receives nothing for twice the interval plus 2d has had its session close requested. |
| `KeepAlive.SomethingIsSent` | paho.mqtt.c/src/MQTTProtocolClient.c:678-691 | With checks at most d apart that find no pending write, whatever is received, at every moment of a run the close has been requested or the last packet went out at most the interval plus d ago (section 3.1.2.10 of MQTT 3.1.1). |
| `KeepAlive.PingOnlyWhenDue` | paho.mqtt.c/src/MQTTProtocolClient.c:670-691 | A ping goes out only at a check of a watched link, when none is out and nothing has been written, or nothing read, for an interval; only that, or another packet, counts as sent. |
| `KeepAlive.ClosesOnlyForCause` | paho.mqtt.c/src/MQTTProtocolClient.c:656-697 | A check requests the close only if its own ping could not be sent, or a ping sent at least an interval earlier has had no PINGRESP since. |
| `KeepAlive.Keepalive` | paho.mqtt.c/src/MQTTProtocolClient.c:656-697 | The loop applies the check to every client, each exactly once. |
| `Sha1Context.Digest` | paho.mqtt.c/src/SHA1.c:77-196 | For any split of the input into update calls the digest is that of the concatenation; below 2^29 bytes it is the SHA-1 of FIPS 180-4. |
| `Sha1Context.PaddingStandardIff` | paho.mqtt.c/src/SHA1.c:139-159 | The padding is that of section 5.1.1 of FIPS 180-4 if and only if the message is shorter than 2^29 bytes. |
| `Sha1Context.AllRounds` | paho.mqtt.c/src/SHA1.c:111-132 | Eighty rounds over sixteen words updated in place (section 6.1.3) equal the rounds over the eighty-word schedule (section 6.1.2). |
| `Sha1Context.NextWord` | paho.mqtt.c/src/SHA1.c:114-115 | The new word takes the place of the one no longer needed. |
| `Sha1Context.CodeFIsF` | paho.mqtt.c/src/SHA1.c:117-124 | The logical functions written with or are those of section 4.1.1 written with exclusive or. |
| `Sha1Standard.ConstantsAreRoots` | paho.mqtt.c/src/SHA1.c:117-124 | Each constant is the integer part of 2^30 times the square root of 2, 3, 5 or 10. |
| `Sha1Example.DigestOfAbc` | paho.mqtt.c/src/SHA1.c:77-137 | The hash of "abc" is the value published with FIPS 180-4, through every round of the published example. |
| `Sha1Context.Context.ProcessBlock` | paho.mqtt.c/src/SHA1.c:95-137 | The hash state becomes the compression of the buffer; the buffer's contents afterwards do not matter. |
| `Sha1Context.Context.Update` | paho.mqtt.c/src/SHA1.c:173-196 | The hashed message grows by exactly the data, whatever is in the buffer. |
| `Sha1Context.Context.Final` | paho.mqtt.c/src/SHA1.c:139-171 | The digest of the message with the code's padding, for either place of the length. |
| `Base64.RoundTrip` | paho.mqtt.c/src/Base64.c:100-177 | Decoding an encoding gives the bytes back, with exactly the room they need or more. |
| `Base64.GroupIsStandard` | paho.mqtt.c/src/Base64.c:190-220 | The four indices of a group are its 24 bits six at a time (section 4 of RFC 4648). |
| `Base64.EncodeInto` | paho.mqtt.c/src/Base64.c:179-235 | Writes the encoding when there is room; with less room, a prefix of whole groups, reported as complete when the room is a multiple of four and as 0 otherwise. |
| `Base64.DecodeInto` | paho.mqtt.c/src/Base64.c:100-177 | Writes exactly what Decode gives, on valid and invalid input and for any room, and a terminating zero where there is room. |
| `Base64.EncodeLengthExactIff` | paho.mqtt.c/src/Base64.c:250-253 | Base64_encodeLength is the number of characters produced if and only if the input is shorter than 2^30 bytes. |
| `Base64.DecodeLengthExact` | paho.mqtt.c/src/Base64.c:239-248 | Base64_decodeLength of an encoding is the length of what was encoded. |
| `Base64.ThroughBuffers` | paho.mqtt.c/src/Base64.c:100-253 | Buffers of the computed lengths are enough to encode and decode any input shorter than 2^30 bytes. |
| `Base64.CharRoundTripBack` | paho.mqtt.c/src/Base64.c:103-121 | The two tables are inverse: every accepted character is the encoding of its value. |
| `Base64.AlphabetIsStandard` | paho.mqtt.c/src/Base64.c:181-184 | The alphabet is table 1 of RFC 4648. |
| `Base64.TestVectors` | paho.mqtt.c/src/Base64.c:179-235 | Test vectors of section 10 of RFC 4648. |

## Left out

- Sockets, TLS, WebSocket framing, SocketBuffer.c, proxies: a write gives complete, interrupted or failed.
- MQTTPersistenceDefault.c: the store is a map; failing store operations and the beforeWrite and afterRead hooks are not modelled.
- Memory: allocation failures, ownership and freeing; `List.size`, which single removals never reduce.
- MQTTClient.c: the blocking interface over the same protocol functions.
- CONNECT, SUBSCRIBE and UNSUBSCRIBE packet formats, reason codes, option structures: tables and length sums that would add only easy members.
- MQTTAsync_restoreCommands and the byte layout of stored commands and queue entries: restored commands enter the engine as a given list with ids not in flight.
- CommandEngine.Async.ReserveId: requires that the id search ends (`SearchNeverEnds` shows when it does not).
- Changing the protocol version on an existing store: keys are probed with the client's version, so one version is kept throughout.
- EngineConservation.EveryCommandInOnePlace: commands are told apart by a number, not by address; a new command allocated where one freed with its write still flagged had been is not modelled.
- ConnectFallback.EveryServerAndVersionOnce: one failure event per attempt; two paths reporting the same failure, and a CONNECT processed while connected, are not modelled.
- PublishPacket.StoreRoundTripIff: integers are unbounded, so the multiplier of restorePacket does not overflow for a length field of more than four bytes.
- StoreRuns.ByteRecoveryOverRuns: covers records written by the client; foreign records whose packet type does not fit their key are not modelled. What a message with an inexact property turns into when it is re-sent after the restart that changed it, and restored once more, is not followed.
- CommandEngine.Async: the responses, a linked list per client in the source, are one sequence; commands are not freed, and the connection tests at the start of a call, made outside the mutex, are not part of its steps.
- Wire.Decode and Wire.DecodeBuf: reading past the end of a buffer, undefined in C, is an explicit outcome.
- KeepAlive.SilenceClosesSession: the blocking client's other check of the ping, and reconnection, are not modelled.
- Base64.EncodeInto and Base64.DecodeInto: sizes are unbounded rather than 32-bit, and a character above 127 indexes the table as unsigned.
- Sha1Context.Context.ProcessBlock: the words and the bytes of the context share memory; the model writes the words back in big-endian order.
- The repository's own core/, lib/ and src/main.c: configuration reading, database calls and a dispatch table.
