/**
 * The unlock assembler of the transaction builder, as a specification.
 *
 * Inputs are walked in order; the first input owned by an address gets a
 * signature block, every later input owned by an address with the same key
 * gets a reference block naming the position of that signature. A failing
 * signer ends the assembly with its error.
 */
module UnlockAssembly {
  import opened Wrappers
  import opened Ledger

  /** The deduplication key of each owning address, in input order. */
  function Keys<A>(addrs: seq<A>, key: A -> string): seq<string>
  {
    seq(|addrs|, i requires 0 <= i < |addrs| => key(addrs[i]))
  }

  /** No position before i has the key at i. */
  predicate IsFirst<K(==)>(ks: seq<K>, i: nat)
    requires i < |ks|
  {
    forall j | 0 <= j < i :: ks[j] != ks[i]
  }

  lemma PrefixSnoc<K>(ks: seq<K>, i: nat)
    requires i < |ks|
    ensures ks[..i + 1] == ks[..i] + [ks[i]]
  {
  }

  /** The smallest position holding k. */
  function FirstIndex<K(==)>(ks: seq<K>, k: K): (j: nat)
    requires k in ks
    ensures j < |ks| && ks[j] == k
    ensures forall i | 0 <= i < j :: ks[i] != k
  {
    if ks[0] == k then 0 else 1 + FirstIndex(ks[1..], k)
  }

  lemma FirstIndexAt<K>(ks: seq<K>, i: nat)
    requires i < |ks|
    ensures FirstIndex(ks, ks[i]) <= i
    ensures IsFirst(ks, FirstIndex(ks, ks[i]))
    ensures IsFirst(ks, i) <==> FirstIndex(ks, ks[i]) == i
  {
  }

  /** The positions that are the first of their key, in increasing order. */
  function FirstPositions<K(==)>(ks: seq<K>): (ps: seq<nat>)
    ensures forall j | 0 <= j < |ps| :: ps[j] < |ks| && IsFirst(ks, ps[j])
    ensures forall i | 0 <= i < |ks| && IsFirst(ks, i) :: i in ps
    ensures forall j, j' | 0 <= j < j' < |ps| :: ps[j] < ps[j']
  {
    if ks == [] then []
    else
      var n := |ks| - 1;
      assert forall i | 0 <= i < n :: IsFirst(ks[..n], i) == IsFirst(ks, i);
      FirstPositions(ks[..n]) + (if IsFirst(ks, n) then [n] else [])
  }

  lemma FirstPositionsSnoc<K>(ks: seq<K>, n: nat)
    requires n < |ks|
    ensures FirstPositions(ks[..n + 1]) == FirstPositions(ks[..n]) + (if IsFirst(ks, n) then [n] else [])
  {
    assert ks[..n + 1][..n] == ks[..n];
    assert IsFirst(ks[..n + 1], n) == IsFirst(ks, n);
  }

  /** There are as many first positions as distinct keys. */
  lemma {:induction false} DistinctCount<K>(ks: seq<K>)
    ensures |FirstPositions(ks)| == |set k | k in ks|
  {
    if ks != [] {
      var n := |ks| - 1;
      DistinctCount(ks[..n]);
      assert ks == ks[..n] + [ks[n]];
      assert (set k | k in ks) == (set k | k in ks[..n]) + {ks[n]};
      assert IsFirst(ks, n) <==> ks[n] !in ks[..n];
    }
  }

  /** The positions of the signature blocks, in increasing order. */
  function SignaturePositions<S>(blocks: seq<UnlockBlock<S>>): seq<nat>
  {
    if blocks == [] then []
    else
      var n := |blocks| - 1;
      SignaturePositions(blocks[..n]) + (if blocks[n].SignatureUnlockBlock? then [n] else [])
  }

  /** The signer requests made for the given positions, all with the same message. */
  function Requests<A>(addrs: seq<A>, msg: Bytes, ps: seq<nat>): seq<(A, Bytes)>
    requires forall j | 0 <= j < |ps| :: ps[j] < |addrs|
  {
    seq(|ps|, j requires 0 <= j < |ps| => (addrs[ps[j]], msg))
  }

  /** What assembling produced: the unlock blocks or an error, and the signer requests made. */
  datatype Assembly<A, S> = Assembly(outcome: Result<seq<UnlockBlock<S>>, Error>, calls: seq<(A, Bytes)>)

  /** Assembly over the first n inputs, whose owning addresses are addrs. */
  function Assemble<A, S>(addrs: seq<A>, key: A -> string, msg: Bytes, signer: Signer<A, S>, n: nat): Assembly<A, S>
    requires n <= |addrs|
  {
    if n == 0 then Assembly(Success([]), [])
    else
      var prev := Assemble(addrs, key, msg, signer, n - 1);
      if prev.outcome.Failure? then prev
      else
        var ks := Keys(addrs, key);
        var i := n - 1;
        if !IsFirst(ks, i) then
          Assembly(Success(prev.outcome.value + [ReferenceUnlockBlock(ToUint16(FirstIndex(ks, ks[i])))]), prev.calls)
        else
          var calls := prev.calls + [(addrs[i], msg)];
          match signer(addrs[i], msg)
          case Failure(e) => Assembly(Failure(e), calls)
          case Success(s) => Assembly(Success(prev.outcome.value + [SignatureUnlockBlock(s)]), calls)
  }

  /** b is the unlock block the protocol's rule asks for at input i. */
  ghost predicate BlockFits<A, S>(addrs: seq<A>, key: A -> string, msg: Bytes, signer: Signer<A, S>,
                                  i: nat, b: UnlockBlock<S>)
    requires i < |addrs|
  {
    var ks := Keys(addrs, key);
    if IsFirst(ks, i) then
      signer(addrs[i], msg).Success? && b == SignatureUnlockBlock(signer(addrs[i], msg).value)
    else
      b == ReferenceUnlockBlock(ToUint16(FirstIndex(ks, ks[i])))
  }

  /** blocks are the right unlock blocks for a prefix of the inputs. */
  ghost predicate UnlocksUpTo<A, S>(addrs: seq<A>, key: A -> string, msg: Bytes, signer: Signer<A, S>,
                                    blocks: seq<UnlockBlock<S>>)
  {
    |blocks| <= |addrs| && forall i | 0 <= i < |blocks| :: BlockFits(addrs, key, msg, signer, i, blocks[i])
  }

  /** blocks are the right unlock blocks for all the inputs: one per input, a signature
      at the first input of each address, a reference to it at every later one. */
  ghost predicate MinimalUnlocks<A, S>(addrs: seq<A>, key: A -> string, msg: Bytes, signer: Signer<A, S>,
                                       blocks: seq<UnlockBlock<S>>)
  {
    |blocks| == |addrs| && UnlocksUpTo(addrs, key, msg, signer, blocks)
  }

  /** The signer succeeds for the first input of each address among the first n. */
  ghost predicate AllSign<A, S>(addrs: seq<A>, key: A -> string, msg: Bytes, signer: Signer<A, S>, n: nat)
    requires n <= |addrs|
  {
    forall i | 0 <= i < n && IsFirst(Keys(addrs, key), i) :: signer(addrs[i], msg).Success?
  }

  /** p is the first input of its address, the signer fails for it and for no earlier such input. */
  ghost predicate FailsFirstAt<A, S>(addrs: seq<A>, key: A -> string, msg: Bytes, signer: Signer<A, S>, p: nat)
  {
    p < |addrs| && IsFirst(Keys(addrs, key), p) && signer(addrs[p], msg).Failure?
    && AllSign(addrs, key, msg, signer, p)
  }

  /** Once assembly fails it stays failed with the same error and requests. */
  lemma {:induction false} AssembleStops<A, S>(addrs: seq<A>, key: A -> string, msg: Bytes, signer: Signer<A, S>, m: nat, n: nat)
    requires m <= n <= |addrs|
    requires Assemble(addrs, key, msg, signer, m).outcome.Failure?
    ensures Assemble(addrs, key, msg, signer, n) == Assemble(addrs, key, msg, signer, m)
    decreases n
  {
    if m < n {
      AssembleStops(addrs, key, msg, signer, m, n - 1);
    }
  }

  /** The first position of a key is the one position holding it with no earlier holder. */
  lemma FirstIndexUnique<K>(ks: seq<K>, p: nat)
    requires p < |ks| && IsFirst(ks, p)
    ensures FirstIndex(ks, ks[p]) == p
  {
  }

  /** A step of assembly at an input whose key was seen before adds a reference to its first position. */
  lemma AssembleReferenceStep<A, S>(addrs: seq<A>, key: A -> string, msg: Bytes, signer: Signer<A, S>, i: nat)
    requires i < |addrs|
    requires Assemble(addrs, key, msg, signer, i).outcome.Success?
    requires !IsFirst(Keys(addrs, key), i)
    ensures var prev := Assemble(addrs, key, msg, signer, i);
            var ks := Keys(addrs, key);
            Assemble(addrs, key, msg, signer, i + 1)
            == Assembly(Success(prev.outcome.value + [ReferenceUnlockBlock(ToUint16(FirstIndex(ks, ks[i])))]), prev.calls)
  {
  }

  /** A step of assembly at an input whose key is new asks the signer and adds its signature or fails with its error. */
  lemma AssembleSignatureStep<A, S>(addrs: seq<A>, key: A -> string, msg: Bytes, signer: Signer<A, S>, i: nat)
    requires i < |addrs|
    requires Assemble(addrs, key, msg, signer, i).outcome.Success?
    requires IsFirst(Keys(addrs, key), i)
    ensures var prev := Assemble(addrs, key, msg, signer, i);
            var next := Assemble(addrs, key, msg, signer, i + 1);
            next.calls == prev.calls + [(addrs[i], msg)]
            && (signer(addrs[i], msg).Failure? ==> next.outcome == Failure(signer(addrs[i], msg).error))
            && (signer(addrs[i], msg).Success? ==>
                  next.outcome == Success(prev.outcome.value + [SignatureUnlockBlock(signer(addrs[i], msg).value)]))
  {
  }

  /** Assembly succeeds exactly when every needed signature succeeds, and then it yields the right blocks. */
  lemma {:induction false} AssemblePrefix<A, S>(addrs: seq<A>, key: A -> string, msg: Bytes, signer: Signer<A, S>, n: nat)
    requires n <= |addrs|
    ensures Assemble(addrs, key, msg, signer, n).outcome.Success? <==> AllSign(addrs, key, msg, signer, n)
    ensures Assemble(addrs, key, msg, signer, n).outcome.Success? ==>
              |Assemble(addrs, key, msg, signer, n).outcome.value| == n
              && UnlocksUpTo(addrs, key, msg, signer, Assemble(addrs, key, msg, signer, n).outcome.value)
  {
    if n > 0 {
      var i := n - 1;
      AssemblePrefix(addrs, key, msg, signer, i);
      AllSignSnoc(addrs, key, msg, signer, i);
      var prev := Assemble(addrs, key, msg, signer, i);
      if prev.outcome.Success? {
        if IsFirst(Keys(addrs, key), i) {
          AssembleSignatureStep(addrs, key, msg, signer, i);
        } else {
          AssembleReferenceStep(addrs, key, msg, signer, i);
        }
        var a := Assemble(addrs, key, msg, signer, n);
        if a.outcome.Success? {
          var b := a.outcome.value[i];
          assert a.outcome.value == prev.outcome.value + [b];
          assert BlockFits(addrs, key, msg, signer, i, b);
          UnlocksUpToSnoc(addrs, key, msg, signer, prev.outcome.value, b);
        }
      } else {
        assert Assemble(addrs, key, msg, signer, n) == prev;
      }
    }
  }

  lemma AllSignSnoc<A, S>(addrs: seq<A>, key: A -> string, msg: Bytes, signer: Signer<A, S>, i: nat)
    requires i < |addrs|
    ensures AllSign(addrs, key, msg, signer, i + 1)
            <==> AllSign(addrs, key, msg, signer, i)
                 && (IsFirst(Keys(addrs, key), i) ==> signer(addrs[i], msg).Success?)
  {
  }

  lemma UnlocksUpToSnoc<A, S>(addrs: seq<A>, key: A -> string, msg: Bytes, signer: Signer<A, S>,
                              blocks: seq<UnlockBlock<S>>, b: UnlockBlock<S>)
    requires UnlocksUpTo(addrs, key, msg, signer, blocks)
    requires |blocks| < |addrs| && BlockFits(addrs, key, msg, signer, |blocks|, b)
    ensures UnlocksUpTo(addrs, key, msg, signer, blocks + [b])
  {
    var blocks' := blocks + [b];
    forall i | 0 <= i < |blocks'| ensures BlockFits(addrs, key, msg, signer, i, blocks'[i]) {
      if i < |blocks| {
        assert blocks'[i] == blocks[i];
      }
    }
  }

  /** A successful assembly asked the signer once for the first input of each address, in input
      order, always with the same message. */
  lemma {:induction false} AssembleCallsOnSuccess<A, S>(addrs: seq<A>, key: A -> string, msg: Bytes,
                                                       signer: Signer<A, S>, n: nat)
    requires n <= |addrs|
    requires Assemble(addrs, key, msg, signer, n).outcome.Success?
    ensures Assemble(addrs, key, msg, signer, n).calls == Requests(addrs, msg, FirstPositions(Keys(addrs, key)[..n]))
  {
    if n > 0 {
      var i := n - 1;
      var ks := Keys(addrs, key);
      var prev := Assemble(addrs, key, msg, signer, i);
      assert prev.outcome.Success?;
      AssembleCallsOnSuccess(addrs, key, msg, signer, i);
      FirstPositionsSnoc(ks, i);
      RequestsSnoc(addrs, msg, FirstPositions(ks[..i]), i, IsFirst(ks, i));
      if IsFirst(ks, i) {
        AssembleSignatureStep(addrs, key, msg, signer, i);
      } else {
        AssembleReferenceStep(addrs, key, msg, signer, i);
      }
    }
  }

  /** A failed assembly failed at the first input, among those that need a signature, for which the
      signer fails; it carries that error, and the signer was asked for the first input of each address
      in order up to and including that one. */
  lemma {:induction false} AssembleFailure<A, S>(addrs: seq<A>, key: A -> string, msg: Bytes,
                                                signer: Signer<A, S>, n: nat)
    returns (p: nat)
    requires n <= |addrs|
    requires Assemble(addrs, key, msg, signer, n).outcome.Failure?
    ensures p < n && FailsFirstAt(addrs, key, msg, signer, p)
    ensures Assemble(addrs, key, msg, signer, n).outcome.error == signer(addrs[p], msg).error
    ensures Assemble(addrs, key, msg, signer, n).calls == Requests(addrs, msg, FirstPositions(Keys(addrs, key)[..p + 1]))
  {
    var i := n - 1;
    var prev := Assemble(addrs, key, msg, signer, i);
    if prev.outcome.Failure? {
      p := AssembleFailure(addrs, key, msg, signer, i);
      assert Assemble(addrs, key, msg, signer, n) == prev;
    } else {
      p := i;
      var ks := Keys(addrs, key);
      AssemblePrefix(addrs, key, msg, signer, i);
      AssembleCallsOnSuccess(addrs, key, msg, signer, i);
      FirstPositionsSnoc(ks, i);
      assert IsFirst(ks, i);
      AssembleSignatureStep(addrs, key, msg, signer, i);
      RequestsSnoc(addrs, msg, FirstPositions(ks[..i]), i, true);
    }
  }

  lemma RequestsSnoc<A>(addrs: seq<A>, msg: Bytes, ps: seq<nat>, p: nat, add: bool)
    requires forall j | 0 <= j < |ps| :: ps[j] < |addrs|
    requires p < |addrs|
    ensures Requests(addrs, msg, ps + (if add then [p] else []))
            == Requests(addrs, msg, ps) + (if add then [(addrs[p], msg)] else [])
  {
    if !add {
      assert ps + [] == ps;
    }
  }

  /** Every reference names an earlier position of the same address, and that position holds a
      signature: references never chain. Holds while positions fit in 16 bits. */
  lemma ReferencesTargetSignatures<A, S>(addrs: seq<A>, key: A -> string, msg: Bytes, signer: Signer<A, S>,
                                         blocks: seq<UnlockBlock<S>>)
    requires MinimalUnlocks(addrs, key, msg, signer, blocks)
    requires |addrs| <= 0x1_0000
    ensures forall i | 0 <= i < |blocks| && blocks[i].ReferenceUnlockBlock? ::
              blocks[i].reference < i
              && blocks[blocks[i].reference].SignatureUnlockBlock?
              && key(addrs[blocks[i].reference]) == key(addrs[i])
  {
    var ks := Keys(addrs, key);
    forall i | 0 <= i < |blocks| && blocks[i].ReferenceUnlockBlock?
      ensures blocks[i].reference < i
      ensures blocks[blocks[i].reference].SignatureUnlockBlock?
      ensures key(addrs[blocks[i].reference]) == key(addrs[i])
    {
      assert BlockFits(addrs, key, msg, signer, i, blocks[i]);
      FirstIndexAt(ks, i);
      var p := FirstIndex(ks, ks[i]);
      assert BlockFits(addrs, key, msg, signer, p, blocks[p]);
    }
  }

  /** The signature blocks stand exactly at the first occurrences of the keys ks. */
  predicate SignedAtFirsts<K(==), S>(ks: seq<K>, blocks: seq<UnlockBlock<S>>)
  {
    |blocks| <= |ks| && forall i | 0 <= i < |blocks| :: blocks[i].SignatureUnlockBlock? <==> IsFirst(ks, i)
  }

  lemma {:induction false} SignaturePositionsAtFirsts<K, S>(ks: seq<K>, blocks: seq<UnlockBlock<S>>)
    requires SignedAtFirsts(ks, blocks)
    ensures SignaturePositions(blocks) == FirstPositions(ks[..|blocks|])
  {
    if blocks != [] {
      var n := |blocks| - 1;
      assert SignedAtFirsts(ks, blocks[..n]) by {
        forall i | 0 <= i < n
          ensures blocks[..n][i].SignatureUnlockBlock? <==> IsFirst(ks, i)
        {
          assert blocks[..n][i] == blocks[i];
        }
      }
      SignaturePositionsAtFirsts(ks, blocks[..n]);
      FirstPositionsSnoc(ks, n);
    }
  }

  /** Signatures stand exactly at the first input of each address. */
  lemma SignaturesAtFirstOccurrences<A, S>(addrs: seq<A>, key: A -> string, msg: Bytes,
                                           signer: Signer<A, S>, blocks: seq<UnlockBlock<S>>)
    requires UnlocksUpTo(addrs, key, msg, signer, blocks)
    ensures SignaturePositions(blocks) == FirstPositions(Keys(addrs, key)[..|blocks|])
  {
    var ks := Keys(addrs, key);
    forall i | 0 <= i < |blocks|
      ensures blocks[i].SignatureUnlockBlock? <==> IsFirst(ks, i)
    {
      assert BlockFits(addrs, key, msg, signer, i, blocks[i]);
    }
    SignaturePositionsAtFirsts(ks, blocks);
  }

  /** A correct assembly holds exactly one signature per distinct address. */
  lemma OneSignaturePerAddress<A, S>(addrs: seq<A>, key: A -> string, msg: Bytes, signer: Signer<A, S>,
                                     blocks: seq<UnlockBlock<S>>)
    requires MinimalUnlocks(addrs, key, msg, signer, blocks)
    ensures |SignaturePositions(blocks)| == |set a | a in addrs :: key(a)|
  {
    var ks := Keys(addrs, key);
    SignaturesAtFirstOccurrences(addrs, key, msg, signer, blocks);
    assert ks[..|blocks|] == ks;
    DistinctCount(ks);
    assert (set k | k in ks) == (set a | a in addrs :: key(a)) by {
      forall k | k in ks ensures k in (set a | a in addrs :: key(a)) {
        var i :| 0 <= i < |ks| && ks[i] == k;
        assert addrs[i] in addrs;
      }
      forall a | a in addrs ensures key(a) in ks {
        var i :| 0 <= i < |addrs| && addrs[i] == a;
        assert ks[i] == key(a);
      }
    }
  }

  /** When all inputs share one address: a signature at position 0 and a reference to 0 everywhere else. */
  lemma SingleAddress<A, S>(addrs: seq<A>, key: A -> string, msg: Bytes, signer: Signer<A, S>,
                            blocks: seq<UnlockBlock<S>>)
    requires MinimalUnlocks(addrs, key, msg, signer, blocks)
    requires forall i | 0 <= i < |addrs| :: key(addrs[i]) == key(addrs[0])
    ensures |blocks| > 0 ==> signer(addrs[0], msg).Success?
                             && blocks[0] == SignatureUnlockBlock(signer(addrs[0], msg).value)
    ensures forall i | 0 < i < |blocks| :: blocks[i] == ReferenceUnlockBlock(0)
  {
    var ks := Keys(addrs, key);
    if |blocks| > 0 {
      assert BlockFits(addrs, key, msg, signer, 0, blocks[0]);
    }
    forall i | 0 < i < |blocks|
      ensures blocks[i] == ReferenceUnlockBlock(0)
    {
      assert BlockFits(addrs, key, msg, signer, i, blocks[i]);
      FirstIndexAt(ks, i);
      assert ks[0] == ks[i];
    }
  }

  /** No inputs: no blocks and no signer requests. */
  lemma NoInputs<A, S>(key: A -> string, msg: Bytes, signer: Signer<A, S>)
    ensures Assemble([], key, msg, signer, 0) == Assembly(Success([]), [])
  {
  }

  /** Inputs owned by X, Y, X: signatures for X and Y, then a reference to position 0. */
  lemma {:induction false} TwoAddressesThreeInputs<A, S>(x: A, y: A, key: A -> string, msg: Bytes, signer: Signer<A, S>)
    requires key(x) != key(y)
    requires signer(x, msg).Success? && signer(y, msg).Success?
    ensures Assemble([x, y, x], key, msg, signer, 3)
            == Assembly(Success([SignatureUnlockBlock(signer(x, msg).value),
                                 SignatureUnlockBlock(signer(y, msg).value),
                                 ReferenceUnlockBlock(0)]),
                        [(x, msg), (y, msg)])
  {
    var addrs := [x, y, x];
    var ks := Keys(addrs, key);
    assert IsFirst(ks, 0) && IsFirst(ks, 1);
    assert !IsFirst(ks, 2) by { assert ks[0] == ks[2]; }
    assert FirstIndex(ks, ks[2]) == 0;
    var sx, sy := signer(x, msg).value, signer(y, msg).value;
    assert Assemble(addrs, key, msg, signer, 0) == Assembly(Success([]), []);
    var a1 := Assemble(addrs, key, msg, signer, 1);
    assert a1.calls == [(x, msg)] && a1.outcome.Success?;
    assert a1.outcome.value == [SignatureUnlockBlock(sx)];
    var a2 := Assemble(addrs, key, msg, signer, 2);
    assert a2.calls == [(x, msg), (y, msg)] && a2.outcome.Success?;
    assert a2.outcome.value == [SignatureUnlockBlock(sx), SignatureUnlockBlock(sy)];
    var a3 := Assemble(addrs, key, msg, signer, 3);
    assert a3.calls == a2.calls && a3.outcome.Success?;
    assert a3.outcome.value == [SignatureUnlockBlock(sx), SignatureUnlockBlock(sy), ReferenceUnlockBlock(0)];
  }

  /** Inputs owned by X, Y: when the signer fails for Y the error is Y's, after requests for X and Y. */
  lemma {:induction false} SecondSignatureFails<A, S>(x: A, y: A, key: A -> string, msg: Bytes, signer: Signer<A, S>)
    requires key(x) != key(y)
    requires signer(x, msg).Success? && signer(y, msg).Failure?
    ensures Assemble([x, y], key, msg, signer, 2) == Assembly(Failure(signer(y, msg).error), [(x, msg), (y, msg)])
  {
    var addrs := [x, y];
    var ks := Keys(addrs, key);
    assert IsFirst(ks, 0) && IsFirst(ks, 1);
    assert Assemble(addrs, key, msg, signer, 0) == Assembly(Success([]), []);
    var a1 := Assemble(addrs, key, msg, signer, 1);
    assert a1.outcome.Success? && a1.calls == [(x, msg)];
  }
}
