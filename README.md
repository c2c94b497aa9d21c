# Transaction builder model

This project models the transaction builder of the IOTA Go client library. A builder collects
three things:

- inputs (unspent transaction outputs), each recorded with the address that owns it;
- outputs;
- an optional indexation payload.

An input can be added by the caller, or discovered by querying a node for the unspent outputs
of an Ed25519 address. That query can be filtered. Errors from the discovery step are kept in a
single error slot. `Build` returns that error before it does anything else.

`Build` then checks its preconditions in this order:

1. a recorded error;
2. missing de/serialization parameters;
3. a missing signer;
4. a failing signing message. Per the comment at transaction_builder.go:126, computing it first
   puts the essence's inputs and outputs in serialized order, in place; the code of the signing
   message is not part of this model.

Next it walks the inputs in order and gives every input one unlock block:

- the first input owned by an address gets a signature block from the signer;
- every later input of the same address gets a reference block, which names the position of
  that signature as a 16-bit integer;
- the signer's first error ends the build.

Last, the transaction must pass the validating serialization.

The model has four modules:

- `Wrappers`: `Option` and `Result`.
- `Ledger`: the values the builder handles:
  - UTXO inputs and their output IDs;
  - unlock blocks;
  - the essence and the transaction;
  - the error kinds;
  - the 16-bit truncation `ToUint16`.
- `UnlockAssembly`: the unlock-block rule, as a specification:
  - `Assemble` rebuilds the blocks and the signer requests for a prefix of the inputs;
  - declarative partner predicates: `BlockFits`, `UnlocksUpTo`, `MinimalUnlocks`, `AllSign` and
    `FailsFirstAt`;
  - lemmas that connect `Assemble` to those predicates.
- `Builder`: the builder itself. It is a class with the three fields of the Go struct, updated
  in place. Its operations are methods, and `Build`'s loop is a `while` loop proved against
  `Assemble`.

Collaborators whose code lies outside the builder are parameters:

- the address's `String()` identity is `key`;
- the signer is a function from an address and a message to a signature or an error;
- the serialized order that computing the signing message puts the essence's inputs and outputs
  in is `lexicalOrder`, and the message itself is `signingMessage`;
- the validating serialization is `serialize`;
- the node's answer to the query is `query`;
- the address's concrete type is the flag `isEd25519`.

The signer requests that `Build` makes are returned as a ghost sequence `calls`, so contracts
can say which addresses were asked to sign and in what order.

Unlike a first-error-wins design, the code keeps only the latest error, and the model follows
the code:

- An error stored later replaces the one stored earlier, so the last error wins, not the first.
  A failed query made after an earlier call recorded an error replaces that error.
- Adding inputs, outputs or a payload after an error has been recorded still changes the
  builder; these calls are not no-ops.
- For a non-Ed25519 address the type switch records the error but does not return. The type
  assertion at transaction_builder.go:68 then panics before the query is made (see Findings).

## Model

| member | source | states |
|---|---|---|
| Ledger.ToUint16 | transaction_builder.go:143 | The `uint16(pos)` conversion: a value below 65536 is kept unchanged; larger ones wrap modulo 65536. |
| Builder.TransactionBuilder.constructor | transaction_builder.go:20-29 | A new builder has no recorded error, an empty essence with no payload, and no recorded owners. |
| Builder.TransactionBuilder.AddInput | transaction_builder.go:47-51 | The input's owner is recorded under the input's ID, replacing any earlier owner; the input is appended last. Outputs, payload and the error slot are unchanged, and every input still has an owner. |
| Builder.OwnersAfterAddInput | transaction_builder.go:47-49 | After AddInput the owner list grows by the new address. An earlier input with the same output ID now resolves to the new address, and every other input keeps its owner. |
| Builder.TransactionBuilder.AddOutput | transaction_builder.go:86-89 | The output is appended last; nothing else changes. |
| Builder.TransactionBuilder.AddIndexationPayload | transaction_builder.go:92-95 | The payload is set, replacing any earlier one; nothing else changes. |
| Builder.TransactionBuilder.AdmitInputs | transaction_builder.go:74-80 | The discovery loop adds exactly `Admitted(listing, filter)` to the inputs, in listing order, and records the queried address as owner of each. Nothing else changes. |
| Builder.AdmittedInputs | transaction_builder.go:74-77 | Both directions: every admitted input comes from the listing and passes the filter, and every listed input that passes the filter is admitted. With no filter, the whole listing is admitted in order. |
| Builder.AdmitStep | transaction_builder.go:75-79 | One pass of the discovery loop: a pair the filter passes adds its input and records the queried address as its owner; any other pair changes nothing. Either way the loop state matches `Admitted` over one more pair. |
| Builder.RecordAllMaps | transaction_builder.go:79 | After the loop's AddInput calls, each admitted input's ID is mapped to the queried address. Every other recorded owner is kept, and no other ID appears. |
| Builder.TransactionBuilder.AddInputsViaNodeQuery | transaction_builder.go:61-83 | Corrected discovery. A non-Ed25519 address records `UnsupportedAddress` and changes nothing else. A failed query records the query's error and changes nothing else. A successful query leaves the error slot as it was and adds the admitted inputs, owned by the address. |
| Builder.TransactionBuilder.AddInputsViaNodeQueryAsWritten | transaction_builder.go:61-83 | Discovery as written. It panics exactly when the address is not Ed25519, after recording `UnsupportedAddress`. In every other case it behaves like the corrected method. |
| Builder.UnsupportedAddressScenario | transaction_builder.go:61-66 | A fresh builder given a non-Ed25519 address (corrected discovery) fails to build with `UnsupportedAddress`, whatever the query, signer and parameters. |
| Builder.TransactionBuilder.Build | transaction_builder.go:116-165 | The first failing check wins, in this order: recorded error, missing parameters, missing signer, failing signing message. None of these asks the signer. The first three leave the builder unchanged; past them the essence is put in serialized order (`lexicalOrder`) in place, per the comment at transaction_builder.go:126, and the signing message is taken on that order. After that, both the result and the signer requests equal what `Assemble` gives over the owners of the reordered inputs, and a serialization error is passed on. A successful result carries the builder's (reordered) essence, and its unlock blocks satisfy `MinimalUnlocks`. Owners and the error slot never change. |
| Builder.TransactionBuilder.AssembleUnlockBlocks | transaction_builder.go:132-156 | The unlock-block loop yields exactly `Assemble(owners, key, msg, signer, number of inputs)`: the same blocks or error, and the same signer requests. |
| Builder.WalkReference | transaction_builder.go:140-144 | Loop step for an address key already in `sigBlockPos`. The stored position is the key's first position. Adding a reference to it keeps the loop state equal to `Assemble` one input further on. |
| Builder.WalkSignature | transaction_builder.go:147-155 | Loop step for a new address key. The signer is asked once, for this input's owner. On success, appending its signature and storing this position keeps the loop state: blocks and requests equal `Assemble` one input further on, and every stored position is its key's first. On failure, `Assemble` over all inputs fails with the signer's error and those requests. |
| Builder.ThreeInputsScenario | transaction_builder.go:132-156 | Inputs owned by X, Y, X (distinct keys and IDs, already in serialized order, successful signatures) give exactly this: the transaction with signatures for X and Y followed by a reference to position 0, or the serialization's error if that transaction fails validation. |
| UnlockAssembly.FirstIndex | transaction_builder.go:140-143 | The position sigBlockPos stores for a key: the smallest position holding it. |
| UnlockAssembly.FirstIndexAt | transaction_builder.go:140-143 | A key's first position is at or before any position holding it, and is itself a first occurrence. A position is the key's first exactly when no earlier position holds the key. |
| UnlockAssembly.FirstPositions | transaction_builder.go:140-141 | The first occurrences of their keys, strictly increasing, and all of them. |
| UnlockAssembly.DistinctCount | transaction_builder.go:140-155 | There are as many first occurrences as distinct keys. |
| UnlockAssembly.AssembleStops | transaction_builder.go:150-152 | Once assembly fails it stays failed: later inputs change neither the error nor the signer requests. |
| UnlockAssembly.AssembleReferenceStep | transaction_builder.go:141-144 | At an input whose key was seen before, one reference block is added, pointing at the key's first position (truncated to 16 bits). The signer is not asked. |
| UnlockAssembly.AssembleSignatureStep | transaction_builder.go:147-155 | At an input whose key is new, the signer is asked once, with that input's owner and the message. Its signature is added or its error ends the assembly. |
| UnlockAssembly.AssemblePrefix | transaction_builder.go:132-156 | Assembly succeeds exactly when the signer succeeds for the first input of every address. On success it yields one block per input, each the one `BlockFits` demands. |
| UnlockAssembly.AssembleCallsOnSuccess | transaction_builder.go:147-149 | A successful assembly asked the signer, in input order, once for the first input of each address, always with the same message. |
| UnlockAssembly.AssembleFailure | transaction_builder.go:149-152 | A failed assembly failed at the earliest first-of-its-address input whose signature fails, and carries that signer error. The requests go up to and including that input, one per address. |
| UnlockAssembly.ReferencesTargetSignatures | transaction_builder.go:140-155 | In a correct block list (at most 65536 inputs) every reference names an earlier position. That position holds a signature block for an address with the same key. |
| UnlockAssembly.SignaturesAtFirstOccurrences | transaction_builder.go:140-155 | Signature blocks stand exactly at the first input of each address. |
| UnlockAssembly.OneSignaturePerAddress | transaction_builder.go:138-155 | A correct block list holds exactly one signature per distinct address key. |
| UnlockAssembly.SingleAddress | transaction_builder.go:140-155 | When every input has the same owner, the first block is that owner's signature and every other block is a reference to 0. |
| UnlockAssembly.TwoAddressesThreeInputs | transaction_builder.go:132-156 | Owners X, Y, X give [signature X, signature Y, reference 0]. The signer is asked for X, then Y. |
| UnlockAssembly.SecondSignatureFails | transaction_builder.go:149-152 | Owners X, Y where Y's signature fails give Y's error, after requests for X and Y. |

## Left out

- `BuildAndSwapToMessageBuilder` (transaction_builder.go:102-113) is left out. It only hands
  Build's result to a message builder, and the message builder is not part of this model.
- The signing message and the validating serialization of a transaction are parameters
  (`signingMessage`, `serialize`). Their byte formats and validation rules are not modelled.
- The byte order that the signing message sorts the essence into (transaction_builder.go:126-127)
  is the parameter `lexicalOrder`. `Build` requires only that it permutes this essence's inputs
  and outputs and keeps its payload. The model reorders the essence before computing the message,
  so the essence is reordered even when the message then fails; how far the Go code has sorted
  when it fails is not visible here.
- The signer is a parameter function. Key management and the signature schemes are not
  modelled.
- An address's `String()` format is the parameter `key`. Its concrete type (the type switch) is
  the flag `isEd25519`.
- The node HTTP call and its context are left out. The query's answer is the parameter `query`.
  The Go code iterates over a map whose order is unspecified; the listing is a sequence, so the
  model fixes one order.
- The input filter is a pure function. A filter that accumulates state across calls is not
  modelled.
- The essence is a value field. In Go, the built transaction and the builder share one essence
  pointer, so later builder calls would change an already built transaction; this aliasing is not
  modelled.
- The fluent `*TransactionBuilder` returns are left out; the methods return nothing visible.
- Nil arguments (a nil input or payload pointer) are not modelled.
- A missing owner for an input, which would make the Go loop panic, is ruled out by the class
  invariant `Valid()`, which every mutator keeps.
- UnlockAssembly.ReferencesTargetSignatures: proved only for at most 65536 inputs. With more inputs,
  `uint16(pos)` wraps, and a reference can name the wrong block. The truncation itself is modelled
  by `ToUint16`.

## Findings

| source | as written | input that shows it | evidently intended | confidence | as-written member | corrected member |
|---|---|---|---|---|---|---|
| transaction_builder.go:62-68 | A non-Ed25519 address records `UnsupportedAddress` and then reaches the type assertion `addr.(*Ed25519Address)`, which panics, so the method panics instead of returning the builder with the error recorded. | Any address that is not an Ed25519 address, e.g. an address of another signature scheme. | Record `UnsupportedAddress` and return without querying, so that Build reports it. | not executed | Builder.TransactionBuilder.AddInputsViaNodeQueryAsWritten | Builder.TransactionBuilder.AddInputsViaNodeQuery |
