/**
 * The transaction builder: accumulates inputs, outputs and a payload, and
 * builds a signed transaction whose unlock blocks carry one signature per
 * distinct owning address.
 *
 * Collaborators whose code is not part of this model are parameters:
 * the address identity (`key`, Go's `String()`), the signer, the signing
 * message of an essence and the validating serialization of a transaction.
 */
module Builder {
  import opened Wrappers
  import opened Ledger
  import opened UnlockAssembly

  /** An input together with the address entitled to spend it. */
  datatype ToBeSignedUtxoInput<A> = ToBeSignedUtxoInput(address: A, input: UtxoInput)

  /** The owning address recorded for each input, in input order. */
  function OwnersOf<A>(inputs: seq<UtxoInput>, inputToAddr: map<OutputId, A>): seq<A>
    requires forall inp | inp in inputs :: inp.Id() in inputToAddr
  {
    seq(|inputs|, i requires 0 <= i < |inputs| => inputToAddr[inputs[i].Id()])
  }

  /** Appending an input records its owner under its ID; an earlier input with the same ID
      is owned by the new address from then on. */
  lemma OwnersAfterAddInput<A>(inputs: seq<UtxoInput>, inputToAddr: map<OutputId, A>, x: ToBeSignedUtxoInput<A>)
    requires forall inp | inp in inputs :: inp.Id() in inputToAddr
    ensures forall inp | inp in inputs + [x.input] :: inp.Id() in inputToAddr[x.input.Id() := x.address]
    ensures var owners := OwnersOf(inputs + [x.input], inputToAddr[x.input.Id() := x.address]);
            |owners| == |inputs| + 1 && owners[|inputs|] == x.address
            && forall i | 0 <= i < |inputs| ::
                 owners[i] == if inputs[i].Id() == x.input.Id() then x.address else OwnersOf(inputs, inputToAddr)[i]
  {
    var inputs' := inputs + [x.input];
    assert forall i | 0 <= i < |inputs| :: inputs'[i] == inputs[i];
  }

  /** The inputs of an unspent-output listing that the filter admits, in listing order. */
  function Admitted<O>(unspent: seq<(UtxoInput, O)>, filter: Option<(UtxoInput, O) -> bool>): (ins: seq<UtxoInput>)
    ensures |ins| <= |unspent|
  {
    if unspent == [] then []
    else
      var n := |unspent| - 1;
      var prev := Admitted(unspent[..n], filter);
      if filter.Some? && !filter.value(unspent[n].0, unspent[n].1) then prev else prev + [unspent[n].0]
  }

  /** Admitted keeps exactly the listed inputs the filter passes, and all of them when there is no filter. */
  lemma AdmittedInputs<O>(unspent: seq<(UtxoInput, O)>, filter: Option<(UtxoInput, O) -> bool>)
    ensures forall inp | inp in Admitted(unspent, filter) ::
              exists j | 0 <= j < |unspent| :: unspent[j].0 == inp && (filter.None? || filter.value(unspent[j].0, unspent[j].1))
    ensures forall j | 0 <= j < |unspent| && (filter.None? || filter.value(unspent[j].0, unspent[j].1)) ::
              unspent[j].0 in Admitted(unspent, filter)
    ensures filter.None? ==> Admitted(unspent, filter) == seq(|unspent|, j requires 0 <= j < |unspent| => unspent[j].0)
  {
    AdmittedSound(unspent, filter);
    AdmittedComplete(unspent, filter);
    if filter.None? {
      AdmittedAll(unspent, filter);
    }
  }

  /** Every admitted input is listed and passes the filter. */
  lemma {:induction false} AdmittedSound<O>(unspent: seq<(UtxoInput, O)>, filter: Option<(UtxoInput, O) -> bool>)
    ensures forall inp | inp in Admitted(unspent, filter) ::
              exists j | 0 <= j < |unspent| :: unspent[j].0 == inp && (filter.None? || filter.value(unspent[j].0, unspent[j].1))
  {
    if unspent != [] {
      var n := |unspent| - 1;
      var prev := unspent[..n];
      AdmittedSound(prev, filter);
      forall inp | inp in Admitted(unspent, filter)
        ensures exists j | 0 <= j < |unspent| :: unspent[j].0 == inp && (filter.None? || filter.value(unspent[j].0, unspent[j].1))
      {
        if inp in Admitted(prev, filter) {
          var j :| 0 <= j < |prev| && prev[j].0 == inp && (filter.None? || filter.value(prev[j].0, prev[j].1));
          assert unspent[j] == prev[j];
        } else {
          assert unspent[n].0 == inp;
        }
      }
    }
  }

  /** Every listed input that passes the filter is admitted. */
  lemma {:induction false} AdmittedComplete<O>(unspent: seq<(UtxoInput, O)>, filter: Option<(UtxoInput, O) -> bool>)
    ensures forall j | 0 <= j < |unspent| && (filter.None? || filter.value(unspent[j].0, unspent[j].1)) ::
              unspent[j].0 in Admitted(unspent, filter)
  {
    if unspent != [] {
      var n := |unspent| - 1;
      var prev := unspent[..n];
      AdmittedComplete(prev, filter);
      forall j | 0 <= j < |unspent| && (filter.None? || filter.value(unspent[j].0, unspent[j].1))
        ensures unspent[j].0 in Admitted(unspent, filter)
      {
        if j < n {
          assert prev[j] == unspent[j];
        }
      }
    }
  }

  /** With no filter every listed input is admitted, in listing order. */
  lemma {:induction false} AdmittedAll<O>(unspent: seq<(UtxoInput, O)>, filter: Option<(UtxoInput, O) -> bool>)
    requires filter.None?
    ensures Admitted(unspent, filter) == seq(|unspent|, j requires 0 <= j < |unspent| => unspent[j].0)
  {
    if unspent != [] {
      var n := |unspent| - 1;
      var prev := unspent[..n];
      AdmittedAll(prev, filter);
      assert Admitted(unspent, filter) == Admitted(prev, filter) + [unspent[n].0];
    }
  }

  lemma AdmittedSnoc<O>(unspent: seq<(UtxoInput, O)>, filter: Option<(UtxoInput, O) -> bool>, k: nat)
    requires k < |unspent|
    ensures Admitted(unspent[..k + 1], filter)
            == Admitted(unspent[..k], filter)
               + (if filter.None? || filter.value(unspent[k].0, unspent[k].1) then [unspent[k].0] else [])
  {
    assert unspent[..k + 1][..k] == unspent[..k];
  }

  /** inputToAddr after AddInput of each of ins, all owned by addr. */
  function RecordAll<A>(inputToAddr: map<OutputId, A>, ins: seq<UtxoInput>, addr: A): map<OutputId, A>
  {
    if ins == [] then inputToAddr
    else
      var n := |ins| - 1;
      RecordAll(inputToAddr, ins[..n], addr)[ins[n].Id() := addr]
  }

  lemma RecordAllSnoc<A>(inputToAddr: map<OutputId, A>, ins: seq<UtxoInput>, inp: UtxoInput, addr: A)
    ensures RecordAll(inputToAddr, ins + [inp], addr) == RecordAll(inputToAddr, ins, addr)[inp.Id() := addr]
  {
    assert (ins + [inp])[..|ins|] == ins;
  }

  /** Recording the inputs maps each of their IDs to addr and keeps every other entry. */
  lemma {:induction false} RecordAllMaps<A>(inputToAddr: map<OutputId, A>, ins: seq<UtxoInput>, addr: A)
    ensures forall id :: id in RecordAll(inputToAddr, ins, addr) <==> id in inputToAddr || exists inp | inp in ins :: inp.Id() == id
    ensures forall inp | inp in ins :: RecordAll(inputToAddr, ins, addr)[inp.Id()] == addr
    ensures forall id | id in inputToAddr && (forall inp | inp in ins :: inp.Id() != id) ::
              RecordAll(inputToAddr, ins, addr)[id] == inputToAddr[id]
  {
    if ins != [] {
      var n := |ins| - 1;
      RecordAllMaps(inputToAddr, ins[..n], addr);
      assert ins == ins[..n] + [ins[n]];
      assert forall inp :: inp in ins <==> inp in ins[..n] || inp == ins[n];
    }
  }

  /** The state of Build's unlock-block loop after the first i inputs: the blocks and signer
      requests so far are those of the assembly, and sigBlockPos maps each key seen so far, and no
      other, to the position of its first input (where the assembly put its signature block). */
  ghost predicate Walked<A, S>(addrs: seq<A>, key: A -> string, msg: Bytes, sign: Signer<A, S>, i: nat,
                               sigBlockPos: map<string, nat>, blocks: seq<UnlockBlock<S>>, calls: seq<(A, Bytes)>)
  {
    var ks := Keys(addrs, key);
    && i <= |addrs|
    && Assemble(addrs, key, msg, sign, i) == Assembly(Success(blocks), calls)
    && (forall k | k in sigBlockPos :: sigBlockPos[k] < i && ks[sigBlockPos[k]] == k && IsFirst(ks, sigBlockPos[k]))
    && (forall k | k in ks[..i] :: k in sigBlockPos)
  }

  /** At an input whose address key was seen, the stored position is the key's first input,
      and appending a reference to it keeps the loop state. */
  lemma WalkReference<A, S>(addrs: seq<A>, key: A -> string, msg: Bytes, sign: Signer<A, S>, i: nat,
                            sigBlockPos: map<string, nat>, blocks: seq<UnlockBlock<S>>, calls: seq<(A, Bytes)>)
    requires Walked(addrs, key, msg, sign, i, sigBlockPos, blocks, calls)
    requires i < |addrs| && key(addrs[i]) in sigBlockPos
    ensures sigBlockPos[key(addrs[i])] == FirstIndex(Keys(addrs, key), key(addrs[i])) < i
    ensures Walked(addrs, key, msg, sign, i + 1, sigBlockPos,
                   blocks + [ReferenceUnlockBlock(ToUint16(sigBlockPos[key(addrs[i])]))], calls)
  {
    var ks := Keys(addrs, key);
    var pos := sigBlockPos[ks[i]];
    FirstIndexUnique(ks, pos);
    assert !IsFirst(ks, i) by { assert ks[pos] == ks[i]; }
    AssembleReferenceStep(addrs, key, msg, sign, i);
    PrefixSnoc(ks, i);
  }

  /** At an input whose address key is new, the signer is asked; on success appending its signature
      and recording the position keeps the loop state, on failure the whole assembly fails with its error. */
  lemma WalkSignature<A, S>(addrs: seq<A>, key: A -> string, msg: Bytes, sign: Signer<A, S>, i: nat,
                            sigBlockPos: map<string, nat>, blocks: seq<UnlockBlock<S>>, calls: seq<(A, Bytes)>)
    requires Walked(addrs, key, msg, sign, i, sigBlockPos, blocks, calls)
    requires i < |addrs| && key(addrs[i]) !in sigBlockPos
    ensures sign(addrs[i], msg).Success? ==>
              Walked(addrs, key, msg, sign, i + 1, sigBlockPos[key(addrs[i]) := i],
                     blocks + [SignatureUnlockBlock(sign(addrs[i], msg).value)], calls + [(addrs[i], msg)])
    ensures sign(addrs[i], msg).Failure? ==>
              Assemble(addrs, key, msg, sign, |addrs|)
              == Assembly(Failure(sign(addrs[i], msg).error), calls + [(addrs[i], msg)])
  {
    var ks := Keys(addrs, key);
    assert IsFirst(ks, i) by {
      forall j | 0 <= j < i ensures ks[j] != ks[i] {
        assert ks[..i][j] in ks[..i];
      }
    }
    AssembleSignatureStep(addrs, key, msg, sign, i);
    PrefixSnoc(ks, i);
    if sign(addrs[i], msg).Failure? {
      AssembleStops(addrs, key, msg, sign, i + 1, |addrs|);
    }
  }

  /** The state of the discovery loop after the first k listed pairs: admitted holds the inputs the
      filter passed, in order, and the builder's inputs and owners are those before the loop with
      admitted added. */
  ghost predicate Admitting<A, O, P>(unspent: seq<(UtxoInput, O)>, filter: Option<(UtxoInput, O) -> bool>, addr: A,
                                     essence0: TransactionEssence<O, P>, owners0: map<OutputId, A>, k: nat,
                                     admitted: seq<UtxoInput>, essence: TransactionEssence<O, P>,
                                     inputToAddr: map<OutputId, A>)
  {
    && k <= |unspent|
    && admitted == Admitted(unspent[..k], filter)
    && essence == essence0.(inputs := essence0.inputs + admitted)
    && inputToAddr == RecordAll(owners0, admitted, addr)
  }

  /** One step of the discovery loop: a pair the filter passes is added with its owner, any other
      pair leaves the state alone. */
  lemma AdmitStep<A, O, P>(unspent: seq<(UtxoInput, O)>, filter: Option<(UtxoInput, O) -> bool>, addr: A,
                           essence0: TransactionEssence<O, P>, owners0: map<OutputId, A>, k: nat,
                           admitted: seq<UtxoInput>, essence: TransactionEssence<O, P>,
                           inputToAddr: map<OutputId, A>)
    requires Admitting(unspent, filter, addr, essence0, owners0, k, admitted, essence, inputToAddr)
    requires k < |unspent|
    ensures var u := unspent[k].0;
            if filter.None? || filter.value(u, unspent[k].1) then
              Admitting(unspent, filter, addr, essence0, owners0, k + 1, admitted + [u],
                        essence.(inputs := essence.inputs + [u]), inputToAddr[u.Id() := addr])
            else
              Admitting(unspent, filter, addr, essence0, owners0, k + 1, admitted, essence, inputToAddr)
  {
    AdmittedSnoc(unspent, filter, k);
    RecordAllSnoc(owners0, admitted, unspent[k].0, addr);
  }

  /** order only reorders the inputs and the outputs of e, and keeps its payload. */
  ghost predicate Reorders<O, P>(order: TransactionEssence<O, P> -> TransactionEssence<O, P>, e: TransactionEssence<O, P>)
  {
    && multiset(order(e).inputs) == multiset(e.inputs)
    && multiset(order(e).outputs) == multiset(e.outputs)
    && order(e).payload == e.payload
  }

  class TransactionBuilder<A, O, P> {
    var occurredBuildErr: Option<Error>
    var essence: TransactionEssence<O, P>
    var inputToAddr: map<OutputId, A>

    /** Every input has a recorded owner. */
    ghost predicate Valid()
      reads this
    {
      forall inp | inp in essence.inputs :: inp.Id() in inputToAddr
    }

    /** The owning address of each input, in input order. */
    ghost function Owners(): seq<A>
      reads this
      requires Valid()
    {
      OwnersOf(essence.inputs, inputToAddr)
    }

    /** NewTransactionBuilder: an empty essence, no owners, no error. */
    constructor ()
      ensures Valid()
      ensures occurredBuildErr == None
      ensures essence == TransactionEssence([], [], None)
      ensures inputToAddr == map[]
    {
      occurredBuildErr := None;
      essence := TransactionEssence([], [], None);
      inputToAddr := map[];
    }

    /** Records the input's owner under its ID and appends the input. */
    method AddInput(input: ToBeSignedUtxoInput<A>)
      requires Valid()
      modifies this
      ensures Valid()
      ensures inputToAddr == old(inputToAddr)[input.input.Id() := input.address]
      ensures essence == old(essence).(inputs := old(essence.inputs) + [input.input])
      ensures occurredBuildErr == old(occurredBuildErr)
    {
      inputToAddr := inputToAddr[input.input.Id() := input.address];
      essence := essence.(inputs := essence.inputs + [input.input]);
    }

    /** Appends the output. */
    method AddOutput(output: O)
      requires Valid()
      modifies this
      ensures Valid()
      ensures essence == old(essence).(outputs := old(essence.outputs) + [output])
      ensures inputToAddr == old(inputToAddr) && occurredBuildErr == old(occurredBuildErr)
    {
      essence := essence.(outputs := essence.outputs + [output]);
    }

    /** Sets the payload, replacing any earlier one. */
    method AddIndexationPayload(payload: P)
      requires Valid()
      modifies this
      ensures Valid()
      ensures essence == old(essence).(payload := Some(payload))
      ensures inputToAddr == old(inputToAddr) && occurredBuildErr == old(occurredBuildErr)
    {
      essence := essence.(payload := Some(payload));
    }

    /** Adds, owned by addr, each listed input that the filter admits, in listing order. */
    method AdmitInputs(addr: A, unspent: seq<(UtxoInput, O)>, filter: Option<(UtxoInput, O) -> bool>)
      requires Valid()
      modifies this
      ensures Valid()
      ensures essence == old(essence).(inputs := old(essence.inputs) + Admitted(unspent, filter))
      ensures inputToAddr == RecordAll(old(inputToAddr), Admitted(unspent, filter), addr)
      ensures occurredBuildErr == old(occurredBuildErr)
    {
      ghost var essence0, owners0 := essence, inputToAddr;
      ghost var admitted: seq<UtxoInput> := [];
      var k := 0;
      while k < |unspent|
        invariant Admitting(unspent, filter, addr, essence0, owners0, k, admitted, essence, inputToAddr)
        invariant Valid()
        invariant occurredBuildErr == old(occurredBuildErr)
      {
        var utxoInput, output := unspent[k].0, unspent[k].1;
        AdmitStep(unspent, filter, addr, essence0, owners0, k, admitted, essence, inputToAddr);
        if filter.None? || filter.value(utxoInput, output) {
          AddInput(ToBeSignedUtxoInput(addr, utxoInput));
          admitted := admitted + [utxoInput];
        }
        k := k + 1;
      }
      assert unspent[..k] == unspent;
    }

    /** AddInputsViaNodeQuery with the address check returning as intended: an address that is not
        Ed25519 records UnsupportedAddress and nothing is queried; a failed query records its error;
        otherwise the admitted inputs of the listing are added. `query` is the node's answer, its
        listing in the order the node's map was drained. */
    method AddInputsViaNodeQuery(addr: A, isEd25519: bool, query: Result<seq<(UtxoInput, O)>, Error>,
                                 filter: Option<(UtxoInput, O) -> bool>)
      requires Valid()
      modifies this
      ensures Valid()
      ensures !isEd25519 ==>
                occurredBuildErr == Some(UnsupportedAddress)
                && essence == old(essence) && inputToAddr == old(inputToAddr)
      ensures isEd25519 && query.Failure? ==>
                occurredBuildErr == Some(query.error)
                && essence == old(essence) && inputToAddr == old(inputToAddr)
      ensures isEd25519 && query.Success? ==>
                occurredBuildErr == old(occurredBuildErr)
                && essence == old(essence).(inputs := old(essence.inputs) + Admitted(query.value, filter))
                && inputToAddr == RecordAll(old(inputToAddr), Admitted(query.value, filter), addr)
    {
      if !isEd25519 {
        occurredBuildErr := Some(UnsupportedAddress);
        return;
      }
      if query.Failure? {
        occurredBuildErr := Some(query.error);
        return;
      }
      AdmitInputs(addr, query.value, filter);
    }

    /** AddInputsViaNodeQuery as written: an address that is not Ed25519 records UnsupportedAddress
        and then fails the type assertion on it, which panics, so the recorded error never reaches
        Build. */
    method AddInputsViaNodeQueryAsWritten(addr: A, isEd25519: bool, query: Result<seq<(UtxoInput, O)>, Error>,
                                          filter: Option<(UtxoInput, O) -> bool>)
      returns (panicked: bool)
      requires Valid()
      modifies this
      ensures Valid()
      ensures panicked <==> !isEd25519
      ensures !isEd25519 ==>
                occurredBuildErr == Some(UnsupportedAddress)
                && essence == old(essence) && inputToAddr == old(inputToAddr)
      ensures isEd25519 && query.Failure? ==>
                occurredBuildErr == Some(query.error)
                && essence == old(essence) && inputToAddr == old(inputToAddr)
      ensures isEd25519 && query.Success? ==>
                occurredBuildErr == old(occurredBuildErr)
                && essence == old(essence).(inputs := old(essence.inputs) + Admitted(query.value, filter))
                && inputToAddr == RecordAll(old(inputToAddr), Admitted(query.value, filter), addr)
    {
      panicked := false;
      if !isEd25519 {
        occurredBuildErr := Some(UnsupportedAddress);
      }
      if !isEd25519 {
        panicked := true;
        return;
      }
      if query.Failure? {
        occurredBuildErr := Some(query.error);
        return;
      }
      AdmitInputs(addr, query.value, filter);
    }

    /** The unlock-block loop of Build: walks the inputs in order, keeping for each address key the
        position of its signature block; a key seen before gets a reference to that position, a new
        key gets a signature from the signer with msg, and a signer error ends the walk. */
    method AssembleUnlockBlocks<S>(key: A -> string, msg: Bytes, sign: Signer<A, S>)
      returns (outcome: Result<seq<UnlockBlock<S>>, Error>, ghost calls: seq<(A, Bytes)>)
      requires Valid()
      ensures outcome == Assemble(Owners(), key, msg, sign, |essence.inputs|).outcome
      ensures calls == Assemble(Owners(), key, msg, sign, |essence.inputs|).calls
    {
      var inputs, owners := essence.inputs, inputToAddr;
      ghost var addrs := Owners();
      calls := [];
      var sigBlockPos: map<string, nat> := map[];
      var unlockBlocks: seq<UnlockBlock<S>> := [];
      var i := 0;
      while i < |inputs|
        invariant i <= |inputs|
        invariant Walked(addrs, key, msg, sign, i, sigBlockPos, unlockBlocks, calls)
      {
        var addr := owners[inputs[i].Id()];
        var addrStr := key(addr);
        assert addr == addrs[i];
        if addrStr in sigBlockPos {
          var pos := sigBlockPos[addrStr];
          WalkReference(addrs, key, msg, sign, i, sigBlockPos, unlockBlocks, calls);
          unlockBlocks := unlockBlocks + [ReferenceUnlockBlock(ToUint16(pos))];
          i := i + 1;
          continue;
        }
        WalkSignature(addrs, key, msg, sign, i, sigBlockPos, unlockBlocks, calls);
        calls := calls + [(addr, msg)];
        var signature := sign(addr, msg);
        if signature.Failure? {
          return Failure(signature.error), calls;
        }
        unlockBlocks := unlockBlocks + [SignatureUnlockBlock(signature.value)];
        sigBlockPos := sigBlockPos[addrStr := i];
        i := i + 1;
      }
      outcome := Success(unlockBlocks);
    }

    /**
     * Builds the transaction. The checks run in order and the first failure wins: a recorded
     * error, missing parameters, a missing signer. Then computing the signing message puts the
     * essence's inputs and outputs in their serialized order (`lexicalOrder`), in place, and the
     * message may fail. Then every input, in the new order, gets an unlock block; the signer is
     * asked once per distinct address, and its first error ends the build. Last, the transaction
     * must pass the validating serialization. `calls` are the signer requests made, in order.
     */
    method Build<Par, S>(params: Option<Par>, signer: Option<Signer<A, S>>, key: A -> string,
                         lexicalOrder: TransactionEssence<O, P> -> TransactionEssence<O, P>,
                         signingMessage: TransactionEssence<O, P> -> Result<Bytes, Error>,
                         serialize: (Transaction<O, P, S>, Par) -> Result<Bytes, Error>)
      returns (r: Result<Transaction<O, P, S>, Error>, ghost calls: seq<(A, Bytes)>)
      requires Valid()
      requires Reorders(lexicalOrder, essence)
      modifies this
      ensures Valid()
      ensures inputToAddr == old(inputToAddr) && occurredBuildErr == old(occurredBuildErr)
      ensures essence == if occurredBuildErr.None? && params.Some? && signer.Some? then lexicalOrder(old(essence))
                         else old(essence)
      ensures occurredBuildErr.Some? ==> r == Failure(occurredBuildErr.value) && calls == []
      ensures occurredBuildErr.None? && params.None? ==> r == Failure(MissingParameters) && calls == []
      ensures occurredBuildErr.None? && params.Some? && signer.None? ==> r == Failure(MissingSigner) && calls == []
      ensures occurredBuildErr.None? && params.Some? && signer.Some? && signingMessage(essence).Failure? ==>
                r == Failure(signingMessage(essence).error) && calls == []
      ensures occurredBuildErr.None? && params.Some? && signer.Some? && signingMessage(essence).Success? ==>
                var a := Assemble(Owners(), key, signingMessage(essence).value, signer.value, |essence.inputs|);
                calls == a.calls
                && (a.outcome.Failure? ==> r == Failure(a.outcome.error))
                && (a.outcome.Success? ==>
                      var tx := Transaction(essence, a.outcome.value);
                      r == if serialize(tx, params.value).Failure? then Failure(serialize(tx, params.value).error)
                           else Success(tx))
      ensures r.Success? ==>
                signer.Some? && signingMessage(essence).Success? && r.value.essence == essence
                && MinimalUnlocks(Owners(), key, signingMessage(essence).value, signer.value, r.value.unlockBlocks)
    {
      calls := [];
      if occurredBuildErr.Some? {
        return Failure(occurredBuildErr.value), calls;
      }
      if params.None? {
        return Failure(MissingParameters), calls;
      }
      if signer.None? {
        return Failure(MissingSigner), calls;
      }
      var sign := signer.value;
      essence := lexicalOrder(essence);
      forall inp | inp in essence.inputs
        ensures inp in old(essence).inputs
      {
        assert inp in multiset(old(essence).inputs);
      }
      var txEssenceData := signingMessage(essence);
      if txEssenceData.Failure? {
        return Failure(txEssenceData.error), calls;
      }
      var msg := txEssenceData.value;

      var assembled;
      assembled, calls := AssembleUnlockBlocks(key, msg, sign);
      if assembled.Failure? {
        return Failure(assembled.error), calls;
      }
      var unlockBlocks := assembled.value;
      AssemblePrefix(Owners(), key, msg, sign, |essence.inputs|);

      var tx := Transaction(essence, unlockBlocks);
      var serialized := serialize(tx, params.value);
      if serialized.Failure? {
        return Failure(serialized.error), calls;
      }
      r := Success(tx);
    }
  }

  /** A builder given a non-Ed25519 address to query fails to build with UnsupportedAddress,
      without asking the signer. */
  method UnsupportedAddressScenario<A, O, P, Par, S>(addr: A, query: Result<seq<(UtxoInput, O)>, Error>, params: Par,
                                                     signer: Signer<A, S>, key: A -> string,
                                                     lexicalOrder: TransactionEssence<O, P> -> TransactionEssence<O, P>,
                                                     signingMessage: TransactionEssence<O, P> -> Result<Bytes, Error>,
                                                     serialize: (Transaction<O, P, S>, Par) -> Result<Bytes, Error>)
    returns (r: Result<Transaction<O, P, S>, Error>)
    requires Reorders(lexicalOrder, TransactionEssence([], [], None))
    ensures r == Failure(UnsupportedAddress)
  {
    var b := new TransactionBuilder<A, O, P>();
    b.AddInputsViaNodeQuery(addr, false, query, None);
    ghost var calls;
    r, calls := b.Build(Some(params), Some(signer), key, lexicalOrder, signingMessage, serialize);
    assert calls == [];
  }

  /** Inputs owned by X, Y, X, already in serialized order, build into signatures for X and Y and
      a reference to position 0, unless the validating serialization rejects that transaction. */
  method ThreeInputsScenario<A, O, P, Par, S>(x: A, y: A, inX: UtxoInput, inY: UtxoInput, inX': UtxoInput,
                                              params: Par, signer: Signer<A, S>, key: A -> string,
                                              lexicalOrder: TransactionEssence<O, P> -> TransactionEssence<O, P>,
                                              signingMessage: TransactionEssence<O, P> -> Result<Bytes, Error>,
                                              serialize: (Transaction<O, P, S>, Par) -> Result<Bytes, Error>)
    returns (r: Result<Transaction<O, P, S>, Error>)
    requires key(x) != key(y)
    requires inX.Id() != inY.Id() && inX.Id() != inX'.Id() && inY.Id() != inX'.Id()
    requires lexicalOrder(TransactionEssence([inX, inY, inX'], [], None)) == TransactionEssence([inX, inY, inX'], [], None)
    requires signingMessage(TransactionEssence([inX, inY, inX'], [], None)).Success?
    requires var msg := signingMessage(TransactionEssence([inX, inY, inX'], [], None)).value;
             signer(x, msg).Success? && signer(y, msg).Success?
    ensures var msg := signingMessage(TransactionEssence([inX, inY, inX'], [], None)).value;
            var tx := Transaction(TransactionEssence([inX, inY, inX'], [], None),
                                  [SignatureUnlockBlock(signer(x, msg).value),
                                   SignatureUnlockBlock(signer(y, msg).value),
                                   ReferenceUnlockBlock(0)]);
            r == if serialize(tx, params).Failure? then Failure(serialize(tx, params).error) else Success(tx)
  {
    var b := new TransactionBuilder<A, O, P>();
    b.AddInput(ToBeSignedUtxoInput(x, inX));
    b.AddInput(ToBeSignedUtxoInput(y, inY));
    b.AddInput(ToBeSignedUtxoInput(x, inX'));
    assert b.essence == TransactionEssence([inX, inY, inX'], [], None);
    assert b.Owners() == [x, y, x];
    var msg := signingMessage(b.essence).value;
    TwoAddressesThreeInputs(x, y, key, msg, signer);
    ghost var calls;
    r, calls := b.Build(Some(params), Some(signer), key, lexicalOrder, signingMessage, serialize);
  }
}
