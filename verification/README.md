# Token factory: wire codec and ledger

A Dafny 4.11 model of the two parts of the `tokenfactory` module that carry its promises, with proofs.

**The wire codec.** The generated Protocol Buffers code for `GenesisState`, `GenesisDenom`, `Params` and
`DenomAuthorityMetadata`: buffers filled from the end towards the start, sizes computed apart from a bit-length
formula, varint loops that shift and or in 64 bits, and the loop that skips unknown fields with one depth counter.
It is proved against a grammar of the bytes: trees of wire fields with groups nested to any depth (Protocol Buffers
Encoding, sections "Base 128 Varints", "Message Structure" and "Last One Wins"). That grammar is the code's own language
and is wider than the standard in three ways. It closes a group with an end-group key of any number, where the standard
asks for the group's own (section "Groups"). It looks at no number inside a group and cuts numbers to 32 bits elsewhere,
where the standard has numbers from 1 to 536870911 (Language Guide, section "Assigning Field Numbers"). And it drops what
a ten-byte varint spells beyond 64 bits, in keys, values and lengths. `Standard.MismatchedGroupIsAccepted`,
`Standard.OversizedNumberIsTaken`, `Standard.WrappedKeyIsTaken` and `Standard.WrappedValueIsTaken` give inputs;
`Standard.SkippedIsStandardExactly`, `Standard.AcceptedIsStandardExactly` and, through all levels of nesting,
`Standard.DecodedIsStandardExactly` say which accepted bytes are standard: those passed as well by a reader that keeps a
stack of open group numbers and drops nothing.

**The ledger.** The six messages and genesis, on a byte-keyed store, a bank and parameters. The byte-level keeper is
proved to refine two plain maps, denom to admin and creator to denoms; conservation, history, renunciation, index
coherence and the genesis round trips are then proved of every run on the plain maps.

The store's values are the codec's bytes: `Keeper.GetAuthorityMetadata` runs the proved decoder and
`Keeper.SetAuthorityMetadata` the proved encoder.

## Files

| file | content |
|---|---|
| Bits.dfy, Varint.dfy | Go's `&`, `\|`, `<<`, `>>` bit by bit; varints: size, writer, reader |
| Wire.dfy, Records.dfy, Grammar.dfy | field trees, the skip loop, the record loop of every `Unmarshal`, and that both accept exactly the grammar |
| Messages.dfy | the four messages as values: bytes, decoding, merge, unknown fields, round trips, what is accepted |
| Standard.dfy | trees are determined by their bytes, and which accepted bytes are standard |
| Codec.dfy | the four messages as classes with the generated methods, proved against Messages |
| Text.dfy, Chain.dfy, Denoms.dfy, Keys.dfy | split and join, key order, laws of the address codec, denoms, store keys |
| Bank.dfy, Ledger.dfy | the bank's contracts; the messages on plain maps |
| Safety.dfy, Genesis.dfy | what every run keeps; loading and exporting |
| Store.dfy, Keeper.dfy | the byte store, and the keeper and message server as classes over it |

## How to read the model

- A Go `[]byte` read by a decoder is a `Slice`, a byte sequence shorter than 2^63. A buffer written to is an array and
  an end index, because the code only ever passes `dAtA[:i]`.
- `int` arithmetic that can wrap is written with `WrapInt64`, `int32(wire >> 3)` with `ToInt32`.
- The three generated copies of `skip*`, `encodeVarint*` and `sov*` differ only in the names of their errors; each is
  modelled once. The varint loop, which the generator repeats in every place, is `Varint.DecodeVarint`; the bounds of
  a length-delimited field are `Codec.ReadSpan`, and the default arm is `Codec.SkipUnknown`.
- An embedded struct is a value in its owner's field. Where Go calls a method on its address, an object of its class is
  made from the value and its final value is put back.
- The chain is a parameter, `Chain.Chain`, with the laws `Chain.Lawful`: printing an address is inverted by parsing,
  printed addresses are non-empty and contain neither `/` nor `|`, the empty text is no address, address texts are
  shorter than 2^62 bytes, and a valid denom has no `|`. An address has 1 to 255 bytes, since the codec neither prints
  nor parses the empty one. Several spellings may parse to one address; a text is canonical when it is how its address
  is printed. `Chain.LawsAreConsistent` gives a chain that meets the laws.
- A message is `ValidateBasic`, then the handler, then commit or discard (`Ledger.DeliverStep`). `Ledger.Submit` puts a
  message to the handler with only the sender's address checked. A run is a sequence of such messages and of bank
  transfers between any accounts, in any order (`Ledger.Step`). Every delivered run is a submitted run
  (`Ledger.DeliveryIsARun`), so what is proved of submitted runs holds of delivered ones.
- The parameter store refuses invalid fees with a panic, so loading a genesis with such fees panics.
- A reason for the bank to refuse that the model does not know (a locked balance, a hook) makes a message fail and be
  discarded, which is a run without that message; the statements about all runs cover it.

The repository's README says an admin can be set to `""` (README.md:16-18). The handler does so (`Safety.HandlerRenounces`),
but `ValidateBasic` rejects an empty new admin (types/msgs.go:205-208), so no delivered message renounces
(`Safety.DeliveryNeverRenounces`). A denom can be without an admin from genesis.

## Model

| member | source | states |
|---|---|---|
| Bits.OrShiftIsSum | types/genesis.pb.go:348 | or-ing a digit shifted by at most 63 into smaller bits adds it modulo 2^64 |
| Bits.LowThreeBits | types/genesis.pb.go:355 | the wire type `wire & 0x7`, masked bit by bit, is the remainder modulo 8 |
| Bits.BitwiseAndOr | types/genesis.pb.go:348 | `&` and `\|` act on each binary digit alone |
| Bits.ShiftedBits | types/genesis.pb.go:354 | `>>` moves each binary digit down |
| Bits.SignedReadings | types/genesis.pb.go:354-386 | `int32(x)`, `int(x)` and wrapping addition keep the value modulo the width, within the signed range |
| Bits.Len64Exactly | types/genesis.pb.go:327-329 | `bits.Len64` is the exponent of the next power of two |
| Varint.SizeIsDigitCount | types/genesis.pb.go:327-329 | the bit-length formula is the number of base-128 digits, 1 to 10 |
| Varint.ReadsWhatIsThere | types/genesis.pb.go:339-352 | a reading ends behind `bs` exactly when `bs` is a well-formed varint standing there, and yields its 7-bit digit sum modulo 2^64 |
| Varint.ReadFailures | types/genesis.pb.go:340-345 | a reading overflows exactly on ten marked bytes and runs out exactly on fewer than ten, all marked |
| Varint.ReadsDigitsBack | types/genesis.pb.go:284-294 | the digits written for any 64-bit value read back as that value |
| Varint.DecodeVarint | types/genesis.pb.go:339-352 | the shift/or loop computes that reading, or its error, without leaving the buffer |
| Varint.EncodeVarint | types/genesis.pb.go:284-294 | writes exactly the digits so that they end at the offset, returns where they start, changes no other byte |
| Wire.SkipsTreeInFront | types/genesis.pb.go:565-642 | for any well-formed field tree followed by any bytes the skip loop returns the tree's encoded length |
| Wire.SkipIsTheGrammar | types/genesis.pb.go:565-642 | the skip loop stops at n within the buffer if and only if the first n bytes encode a well-formed tree |
| Wire.HopFailures | types/genesis.pb.go:586-636 | a leaf's body is refused for wire types 6 and 7, a length of 2^63 or more, or an unreadable varint, each with its own error |
| Wire.SkipFailures | types/genesis.pb.go:565-642 | the skip loop complains about an end group if and only if it starts on one, groups never being left unbalanced inside |
| Wire.SkipsBeyond | types/genesis.pb.go:565-642 | the skip loop ends beyond the buffer if and only if the body of a first field that is no group does |
| Wire.SkipField | types/genesis.pb.go:565-642 | the imperative loop with its depth counter terminates, stays in bounds and computes that result |
| Wire.SkipVarint | types/genesis.pb.go:588-599 | the inner loop that looks only at continuation bits stops where the varint ends, or with its error |
| Records.FieldNumberReads | types/genesis.pb.go:353 | the field number is the signed 32-bit reading of the key's bits above the third |
| Records.KeyFailures | types/genesis.pb.go:353-364 | a record is refused for an end group, a number that is not positive, or an unexpected wire type of a known number, each exactly then and in this order |
| Records.SpanFailures | types/genesis.pb.go:365-389 | a payload is refused for a length or end of 2^63 or more, or an end beyond the buffer, each with its own error |
| Records.StepLocal | types/genesis.pb.go:336-443 | one round of a decoder depends on the bytes of its own record only |
| Records.ScanAppend | types/genesis.pb.go:333-449 | after a cleanly scanned prefix the loop finds the same fields as in the rest alone, and fails if and only if the rest fails |
| Grammar.ScanIsTheGrammar | types/genesis.pb.go:333-449 | a decoder's loop consumes a buffer cleanly if and only if it encodes a forest of well-formed trees with legal numbers and expected wire types; the fields found are those of the forest |
| Messages.GenesisStateMerges | types/genesis.pb.go:333-449 | decoding `a+b` into a state is decoding `b` into the result of decoding `a` |
| Messages.DecodeIsMerge | types/params.pb.go:198-300 | the same for every message |
| Messages.SubMessagesConcatenate | types/genesis.pb.go:361-393 | two consecutive Params sub-messages act as one with the concatenated payload |
| Messages.GenesisStateIgnoresUnknown | types/genesis.pb.go:429-443 | a well-formed tree with an unused number between clean bytes and any bytes changes neither success nor value |
| Messages.UnknownGroupIsIgnored | types/genesis.pb.go:565-642 | an instance: an unknown group around a varint field, in front of any bytes, is ignored |
| Messages.UnknownFieldIsTransparent | types/genesis.pb.go:544-558 | the same for every message |
| Messages.LastOneWins | types/authorityMetadata.pb.go:186-267 | one more field, an empty text or a zero included, replaces the text or gas that was there; a fee is appended |
| Messages.SubMessageEffects | types/genesis.pb.go:361-428 | an embedded sub-message is merged into the one that is there, a repeated one is decoded into an empty one and appended; its error is passed on |
| Messages.AuthorityRoundTrip | types/authorityMetadata.pb.go:186-267 | an encoded admin decodes to itself into any record; no bytes leave the record as it was |
| Messages.ParamsRoundTrip | types/params.pb.go:198-300 | decoding encoded params into others appends the fees and takes the gas unless it is zero |
| Messages.DenomRoundTrip | types/genesis.pb.go:450-564 | decoding an encoded genesis denom into any one replaces denom and admin unless they are empty |
| Messages.GenesisStateRoundTrip | types/genesis.pb.go:197-564 | every state below 2^63 encoded bytes is restored by decoding its encoding into an empty state |
| Messages.GenesisStateMergeTrip | types/genesis.pb.go:197-564 | decoding an encoded state into any one appends fees and denoms and replaces the gas unless it is zero |
| Messages.FieldsOfAuthority | types/authorityMetadata.pb.go:141-154 | the independent scan finds in the encoding one field 1, or none for the empty admin |
| Messages.FieldsOfParams | types/params.pb.go:136-161 | it finds a field 1 per fee, in list order, and then the gas as field 2 exactly when it is not zero |
| Messages.FieldsOfDenom | types/genesis.pb.go:259-282 | it finds the denom as field 1 unless it is empty, and then always the authority record as field 2 |
| Messages.FieldsOfState | types/genesis.pb.go:212-242 | it finds the params as field 1, always, and then each genesis denom, in list order, as field 2 |
| Messages.ExampleBytes | types/genesis.pb.go:212-282 | the seventeen bytes of one small state, tags, lengths and order |
| Messages.AcceptedExactly | types/genesis.pb.go:333-564 | a genesis state is decoded, into any state, if and only if the buffer is a legal forest whose Params and denom payloads are legal forests of those messages, down to the authority records |
| Standard.EncodeIsPrefixFree | types/genesis.pb.go:565-642 | the bytes of a well-formed field begin no other field, so a skipped field has one reading only |
| Standard.EncodeAllIsInjective | types/genesis.pb.go:333-449 | a whole buffer is the encoding of at most one forest |
| Standard.StrictIsSkip | types/genesis.pb.go:565-642 | what the strict reader passes, with its stack of group numbers and whole varints, the skip loop passes, to the same end, at every depth |
| Standard.SkippedIsStandardExactly | types/genesis.pb.go:574-637 | a field the skip loop passes within the buffer is a standard one, with 64-bit varints, legal numbers and groups closed by their own, if and only if the strict reader passes it too, and that reader never stops elsewhere |
| Standard.AcceptedIsStandardExactly | types/genesis.pb.go:333-449 | a buffer the loop of any message consumes is made of standard fields if and only if the strict reader consumes it |
| Standard.DecodedIsStandardExactly | types/genesis.pb.go:333-564 | a genesis state that is decoded is standard at every level, down to the authority records, if and only if the strict reader passes the buffer and every known sub-message in it |
| Standard.StandardIsAccepted | types/genesis.pb.go:354-443 | the other direction holds: standard fields in the expected wire types are always consumed, and each is known by the number its key spells |
| Standard.MismatchedGroupIsAccepted | types/genesis.pb.go:622-628 | group 3 closed as group 4, malformed in the standard, is ignored by the decoder into any state |
| Standard.OversizedNumberIsTaken | types/authorityMetadata.pb.go:206-245 | a field numbered 2^32+1 is taken for field 1, the admin; no standard message has these bytes |
| Standard.WrappedKeyIsTaken | types/authorityMetadata.pb.go:206-245 | a ten-byte key that spells 2^64+10, number 2^61+1, is taken for field 1, the admin; no standard message has these bytes |
| Standard.WrappedValueIsTaken | types/params.pb.go:262-280 | a gas value that spells 2^64+v, v below 128, is taken for v; no standard message has these bytes |
| Codec.ReadSpan | types/genesis.pb.go:365-389 | the length loop with both wrap-around checks finds the payload's bounds or the right error, within the buffer |
| Codec.SkipUnknown | types/genesis.pb.go:429-443 | the default arm rewinds to the key and passes the whole field, or fails |
| Codec.AuthorityMessage.Size | types/authorityMetadata.pb.go:167-178 | is the length of the encoding |
| Codec.AuthorityMessage.MarshalToSizedBuffer | types/authorityMetadata.pb.go:141-154 | writes exactly the encoding before the end index and changes no other byte |
| Codec.AuthorityMessage.Marshal | types/authorityMetadata.pb.go:126-134 | yields a fresh buffer holding exactly the encoding |
| Codec.AuthorityMessage.Unmarshal | types/authorityMetadata.pb.go:186-267 | leaves the decoded value in the receiver, or returns the decoder's error |
| Codec.ParamsMessage.Size | types/params.pb.go:174-190 | is the length of the encoding |
| Codec.ParamsMessage.MarshalToSizedBuffer | types/params.pb.go:136-161 | writes exactly the encoding before the end index, fees from last to first, and changes no other byte |
| Codec.ParamsMessage.Marshal | types/params.pb.go:121-129 | yields a fresh buffer holding exactly the encoding |
| Codec.ParamsMessage.Unmarshal | types/params.pb.go:198-300 | leaves the decoded value in the receiver, or returns the decoder's error |
| Codec.DenomMessage.Size | types/genesis.pb.go:312-325 | is the length of the encoding |
| Codec.DenomMessage.MarshalToSizedBuffer | types/genesis.pb.go:259-282 | writes exactly the encoding before the end index, the nested record in its sub-slice, and changes no other byte |
| Codec.DenomMessage.Marshal | types/genesis.pb.go:244-252 | yields a fresh buffer holding exactly the encoding |
| Codec.DenomMessage.Unmarshal | types/genesis.pb.go:450-564 | leaves the decoded value in the receiver, or returns the decoder's error |
| Codec.StateMessage.Size | types/genesis.pb.go:295-310 | is the length of the encoding |
| Codec.StateMessage.MarshalToSizedBuffer | types/genesis.pb.go:212-242 | writes exactly the encoding before the end index through nested and repeated messages and changes no other byte |
| Codec.StateMessage.Marshal | types/genesis.pb.go:197-205 | yields a fresh buffer holding exactly the encoding |
| Codec.StateMessage.Unmarshal | types/genesis.pb.go:333-449 | leaves the decoded value in the receiver, or returns the decoder's error |
| Denoms.DenomLayout | types/denoms.go:34 | the bytes of a printed denom |
| Denoms.PrintThenParse | types/denoms.go:24-68 | what the printer accepts the parser takes apart: reprinted creator, same subdenom, slashes included; rejected when the creator is no address |
| Denoms.ParsesJoined | types/denoms.go:41-68 | what the parser makes of any joined parts, within the printer's caps or not: reprinted creator and whole subdenom, or the right error |
| Denoms.ParsesExactly | types/denoms.go:41-68 | a denom parses if and only if it is valid and joins a slash-free address text and any subdenom; the two errors are told apart |
| Denoms.PrinterIsInjective | types/denoms.go:24-36 | equal denoms come from equal creators and subdenoms |
| Denoms.CapsImplyDenomLimit | types/denoms.go:12-30 | the two length caps imply the 128-byte limit and meet it exactly |
| Denoms.ParseThenPrint | types/denoms.go:41-68 | a parsed denom is printed back if and only if its creator is canonical and both parts are within the caps |
| Keys.KeyLayout | types/keys.go:28-50 | the bytes of record and index keys and of the query prefixes |
| Keys.AuthorityKeyInjective | types/keys.go:35-39 | two denoms share a record key only if they are equal, whatever their bytes |
| Keys.KindsDoNotCollide | types/keys.go:28-50 | record keys and index keys never collide, nor does either kind lie under the other's prefix |
| Keys.CreatorKeyInjective | types/keys.go:41-50 | bar-free creators with denoms share an index key only if both are equal |
| Keys.PrefixIsOwn | types/keys.go:41-45 | a query text's prefix covers an entry if and only if the entry is that text's, bars in the query or not |
| Text.LessIsByteOrder | keeper/creators.go:15-21 | one key is before another if and only if, behind some equal first bytes, it ends or has the smaller byte |
| Text.LessUnderPrefix | keeper/keeper.go:58-73 | a common prefix does not affect key order, so a prefix store iterates in the order of its stripped keys |
| Text.EnumerationIsUnique | keeper/creators.go:12-27 | two ascending enumerations of the same keys are equal, so iteration order is determined |
| Bank.SendMoves | types/expected_keepers.go:21 | a transfer changes every balance by exactly the coins that left or arrived, also to oneself |
| Bank.SendConserves | types/expected_keepers.go:21 | in any bank a transfer leaves the difference between balances and supply of each denom as it was |
| Bank.MintConserves | types/expected_keepers.go:18 | minting raises supply by its coins and leaves that difference as it was, denom by denom |
| Bank.BurnConserves | types/expected_keepers.go:19 | burning lowers supply by its coins and leaves that difference as it was, denom by denom |
| Bank.TakenExactly | types/expected_keepers.go:21-40 | a list of coins can be taken if and only if none is negative and the account holds their sum in every denom |
| Ledger.DeliveryIsARun | types/msgs.go:33-256 | delivering messages, with transfers between them, is running the handlers on those that pass the basic checks |
| Safety.CreationEffect | keeper/createdenom.go:30-74 | an accepted creation is of a factory denom without metadata; it adds its record, its index entry and metadata with the denom as base and only unit, of exponent 0, no others, and changes neither supply nor parameters |
| Safety.AdminEffect | keeper/msg_server.go:45-206 | every other accepted message was sent by the denom's recorded admin; it changes no other denom's record or metadata, and neither index nor parameters |
| Safety.RunKeepsCoherent | keeper/createdenom.go:30-74 | after every run of messages and transfers records, index and metadata agree and each denom sits under exactly one creator, its own segment or its canonical spelling |
| Safety.HandleConserves | keeper/bankactions.go:9-72 | in any state no handler changes the difference between the balances and the supply of any denom, not even one that fails half-way |
| Safety.RunKeepsGap | keeper/bankactions.go:9-72 | nor does any run of messages and transfers |
| Safety.RunConserves | keeper/bankactions.go:9-72 | where balances add up to supply for every denom they do after every run |
| Safety.BalanceEffect | keeper/bankactions.go:9-72 | the exact change of every account's balance of every denom in an accepted message: the address named in a mint or burn gains or loses, the sender when none is named; a mint or burn for another account leaves the module account as it was |
| Safety.MintSucceedsExactly | keeper/msg_server.go:45-81 | a mint is accepted if and only if the sender is the recorded admin, denom and amount are fine, and the address named, or the sender when none is, may receive coins; paying out never lacks funds |
| Safety.BurnSucceedsExactly | keeper/msg_server.go:83-119 | in a conserved state a burn is accepted if and only if the checks pass and the address named, or the sender when none is, holds enough |
| Safety.ForceTransferSucceedsExactly | keeper/bankactions.go:54-72 | a forced transfer is accepted if and only if the checks pass and the source holds enough |
| Safety.ChangeAdminSucceedsExactly | keeper/msg_server.go:150-175 | a handover is accepted if and only if the sender is the recorded admin and the new admin is an address or empty; it writes the new admin and nothing else |
| Safety.SetDenomMetadataSucceedsExactly | keeper/msg_server.go:177-206 | a metadata change is accepted if and only if the metadata is valid and the sender is the recorded admin of its base; it writes that metadata and nothing else |
| Safety.CreationSucceedsExactly | keeper/createdenom.go:13-98 | a creation is accepted if and only if the subdenom does not circulate, the caps hold, the denom is valid and new, and the payer's balances cover the fee in every denom |
| Safety.RefusesExactly | keeper/msg_server.go:24-206 | in a conserved state the handler's error is the first objection that can be read off the state before it; a failed handler changes nothing, but for a mint whose recipient is refused |
| Safety.RefusedMintEffect | keeper/bankactions.go:9-29 | a mint whose recipient is refused has minted, and left the coins on the module account |
| Safety.BasicChecksExactly | types/msgs.go:33-256 | what passes the basic checks, message by message |
| Safety.BasicErrorsExactly | types/msgs.go:33-256 | and which error the rest gets |
| Safety.DeliveryTurnsAwayExactly | types/msgs.go:33-256 | of what the handlers would accept, the basic checks turn away exactly mints and burns of zero and an empty new admin |
| Safety.DeliveryNeverPanics | types/msgs.go:76-139 | in a conserved state nothing that passes the basic checks panics in a handler |
| Safety.SupplyEffect | keeper/bankactions.go:9-52 | supply of a denom changes only by its own mints and burns, by exactly their amounts |
| Safety.LogPassesAudit | keeper/msg_server.go:24-175 | an auditor who sees only the messages logged in a run accepts them and ends with the true admin and supply |
| Safety.SupplyAndAdminHistory | keeper/msg_server.go:45-175 | supply is the starting supply plus mints minus burns; the admin is the creator or the last one handed to; each act was sent by the admin of that moment |
| Safety.CreatedOnce | keeper/createdenom.go:68-71 | no run creates a denom twice, nor one that already has a record |
| Safety.OthersUntouched | keeper/msg_server.go:24-206 | a message about one denom leaves every other denom's record, supply, metadata and index alone |
| Safety.ActsOnOneDenom | keeper/msg_server.go:45-206 | an accepted message other than a creation leaves every other denom's record, index, supply, metadata and all balances alone |
| Safety.RenouncedIsFrozen | keeper/msg_server.go:59-193 | once a record holds the empty admin no run changes the denom's admin, supply, metadata or index, nor logs any act on it |
| Safety.HandlerRenounces | keeper/msg_server.go:150-175 | the handler accepts an empty new admin from the admin; delivery rejects it |
| Safety.DeliveryNeverRenounces | types/msgs.go:199-216 | no delivered run empties a record that holds an admin |
| Genesis.ValidationMeans | types/genesis.go:23-51 | validation accepts exactly the duplicate-free lists of factory denoms with empty or valid admins |
| Genesis.ValidateExactly | types/genesis.go:23-51 | a genesis is valid if and only if its fee is, nil standing for empty, and its entries are valid and without repetition |
| Genesis.FirstBadEntry | types/genesis.go:28-48 | the first bad entry decides the error |
| Genesis.LoadsExactly | keeper/genesis.go:19-32 | loading any entries panics if and only if a denom does not parse or an admin is neither empty nor an address; otherwise the last admin of each denom stands and metadata is added where there is none |
| Genesis.LoadGenesisSucceedsExactly | keeper/genesis.go:11-33 | loading a genesis panics if and only if the fee is invalid or an entry is; nil fees become empty ones |
| Genesis.LoadAll | keeper/genesis.go:19-32 | loading valid new denoms never panics, records each admin and canonical creator, adds the metadata of a new denom, and keeps all else and coherence |
| Genesis.ExportListsRecords | keeper/genesis.go:36-58 | an export lists every record once with its admin, in the order of the store keys |
| Genesis.LoadThenExport | keeper/genesis.go:11-58 | a valid genesis loads into an empty store without panic, keeps bank metadata, and exports to the same pairs, each once, in store key order |
| Genesis.ExportThenLoad | keeper/genesis.go:11-58 | a coherent state's export passes validation and reloads to the same records; the index is restored if and only if every recorded creator is canonical |
| Genesis.SecondRoundIsIdle | keeper/genesis.go:11-58 | a second export and load changes nothing further |
| Genesis.ReachableStates | keeper/genesis.go:11-33 | from a valid genesis and through any messages and transfers the state stays coherent and conserved and its export can be loaded |
| Store.ReadRecord | keeper/admins.go:11-20 | whatever denom is asked for, the bytes found are its admin's encoding, none for a missing record |
| Store.StoreRecord | keeper/admins.go:23-38 | writing a record updates the represented admin map at that denom and nothing else |
| Store.StoreEntry | keeper/creators.go:7-10 | writing an index entry adds that pair to the represented index and nothing else |
| Store.StoreIsDetermined | keeper/keeper.go:58-73 | the plain maps determine every byte of the store |
| Store.MapsAreDetermined | keeper/keeper.go:58-73 | the store determines the plain maps |
| Store.KeysUnderCreator | keeper/creators.go:12-23 | a creator's prefix store holds exactly the denoms recorded for that text |
| Store.KeysUnderCreators | keeper/creators.go:25-27 | the store of all creators holds exactly the index, keyed by creator and denom, with the denom as value |
| Keeper.Keeper.constructor | keeper/keeper.go:31-50 | a new keeper represents the empty maps |
| Keeper.Keeper.GetAuthorityMetadata | keeper/admins.go:11-20 | decodes the stored bytes to the represented admin, the empty one for a missing record, and never fails |
| Keeper.Keeper.SetAuthorityMetadata | keeper/admins.go:23-38 | refuses an invalid admin, else stores bytes that represent the updated map |
| Keeper.Keeper.SetAdmin | keeper/admins.go:40-49 | read, change and write back amount to updating the map |
| Keeper.Keeper.AddDenomFromCreator | keeper/creators.go:7-10 | the bytes represent the index with the pair added |
| Keeper.Keeper.Iterator | keeper/creators.go:15-27 | yields exactly the keys under a prefix, stripped, ascending, each once |
| Keeper.Keeper.GetDenomsFromCreator | keeper/creators.go:12-23 | for every query text returns exactly the denoms recorded for it, sorted, each once |
| Keeper.Keeper.CreateDenomAfterValidation | keeper/createdenom.go:30-54 | keeps existing metadata, writes record and index so that the bytes represent the plain step |
| Keeper.Keeper.ValidateCreateDenom | keeper/createdenom.go:56-74 | refuses native subdenoms, unprintable denoms and denoms with metadata |
| Keeper.Keeper.ChargeForCreateDenom | keeper/createdenom.go:76-98 | pays the fee to the pool, or refuses, and charges nothing when the fee is nil |
| Keeper.Keeper.CreateDenom | keeper/createdenom.go:13-26 | refines the plain creation, failures at every stage included |
| Keeper.Keeper.MintTo | keeper/bankactions.go:9-29 | refines the plain mint, the half-way state of a bad recipient included |
| Keeper.Keeper.BurnFrom | keeper/bankactions.go:31-52 | refines the plain burn |
| Keeper.Keeper.ForceTransfer | keeper/bankactions.go:54-72 | refines the plain forced transfer |
| Keeper.Keeper.InitGenesis | keeper/genesis.go:11-33 | panics exactly when the plain load does, else the bytes represent the loaded state |
| Keeper.Keeper.ExportGenesis | keeper/genesis.go:36-58 | iterating the store and decoding each record yields the plain export |
| Keeper.MsgServer.CreateDenom | keeper/msg_server.go:24-43 | the bytes represent the plain handler's result, with the same error |
| Keeper.MsgServer.Mint | keeper/msg_server.go:45-81 | the bytes represent the plain handler's result, with the same error |
| Keeper.MsgServer.Burn | keeper/msg_server.go:83-119 | the bytes represent the plain handler's result, with the same error |
| Keeper.MsgServer.ForceTransfer | keeper/msg_server.go:121-148 | the bytes represent the plain handler's result, with the same error |
| Keeper.MsgServer.ChangeAdmin | keeper/msg_server.go:150-175 | the bytes represent the plain handler's result, with the same error |
| Keeper.MsgServer.SetDenomMetadata | keeper/msg_server.go:177-206 | the bytes represent the plain handler's result, with the same error |
| Keeper.MsgServer.Deliver | keeper/msg_server.go:24-206 | checks, handler, and commit or restore: the bytes represent the delivered state and a failed message leaves no trace |
| Keeper.TransferCoins | types/expected_keepers.go:21 | after holders move coins through the bank the bytes represent the plain transfer |
| Keeper.DeliverSteps | keeper/msg_server.go:24-206 | after any sequence of delivered messages and transfers the bytes represent the delivered plain run |
| Keeper.ValidateGenesis | types/genesis.go:23-51 | the loop with its map of seen denoms decides validation as stated above |

## Left out

- Codec.AuthorityMessage.Unmarshal: says nothing of the receiver after an error; every caller drops it.
- Codec.ParamsMessage.Unmarshal: says nothing of the receiver after an error, which every caller drops, and refuses no coin payload, because the `Coin` codec is not part of this model.
- Codec.DenomMessage.Unmarshal: says nothing of the receiver after an error; every caller drops it.
- Codec.StateMessage.Unmarshal: says nothing of the receiver after an error; every caller drops it.
- Messages.GenesisStateIgnoresUnknown: claims success and value, not which error is returned, since that may depend on positions.
- Keeper.Keeper.ChargeForCreateDenom: does not model gas consumption (keeper/createdenom.go:92-95), which changes no state of the module.
- Standard.DecodedIsStandardExactly: does not ask that `string` fields hold UTF-8 text; the code keeps their bytes as they are.
- Keeper.Keeper.InitGenesis: says nothing of the state after a panic, which halts the chain.
- The `Coin` codec is not part of this model: a coin on the wire is its payload, and no payload is refused.
- On the wire `Params` carries coin payloads; the ledger's `ModuleParams` carries coins, because the module keeps its parameters in a parameter store and not in its own byte store.
- The address codec and the validation of denoms, metadata and fees are parameters; only the laws above are assumed of them.
- The bank's `SendCoins` is all or nothing and refuses negative coins; vesting locks and send hooks are not modelled, and big-integer overflow does not occur.
- The burn guard looks up an account by the raw text of the address (keeper/msg_server.go:99); it is a predicate on that text that can only reject.
- Gas, events, logging, the module account's creation and the contract keeper are not modelled.
- `MarshalTo`, `Equal`, `soz*`, `String` and the descriptor functions of the generated code.
- types/tx.pb.go and types/query.pb.go repeat the same generated skeleton over flatter messages.
- Queries, command line, JSON and amino codecs, the simulation and the test application.
