/** Building transactions, coinbases and blocks, and checking what they commit to. */
module Transactions {
  import opened Arithmetic
  import opened Bytes
  import opened Curve
  import opened Primitives
  import opened RangeProofs
  import opened Outputs
  import opened RingSignature
  import opened Balance
  import opened Subsidy

  /** The random values drawn for one transaction. */
  datatype TxnNonces = TxnNonces(outputs: seq<OutputNonce>, sign: SignNonces)

  predicate NoncesFor(c: Suite, nonces: TxnNonces, count: nat) {
    && count <= |nonces.outputs|
    && (forall i :: 0 <= i < |nonces.outputs| ==> |nonces.outputs[i].bits| == c.bits)
    && |nonces.sign.rs| == |nonces.sign.ss| == c.ring
  }

  function DestKeys(inputs: seq<Output>): (pks: seq<Point>)
    ensures |pks| == |inputs|
  {
    seq(|inputs|, i requires 0 <= i < |inputs| => inputs[i].destKey)
  }

  function InputCommits(inputs: seq<Output>): (ics: seq<Point>)
    ensures |ics| == |inputs|
  {
    seq(|inputs|, i requires 0 <= i < |inputs| => inputs[i].commit.point)
  }

  function InputHashes(c: Suite, inputs: seq<Output>): (hashes: seq<Digest>)
    ensures |hashes| == |inputs|
  {
    seq(|inputs|, i requires 0 <= i < |inputs| => c.OutputHash(inputs[i]))
  }

  /** The blinding factor of all outputs together. */
  function OutputBlind(c: Suite, rcpts: seq<PublicKey>, nonces: seq<OutputNonce>, count: nat): nat
    requires count <= |rcpts| && count <= |nonces|
  {
    SentBlindSum(c, rcpts, nonces, count) % ORDER
  }

  function BuiltBody(c: Suite, inputs: seq<Output>, amts: seq<nat>, rcpts: seq<PublicKey>, fee: nat,
                     nonces: TxnNonces): TxnBody
    requires |amts| <= |rcpts| && NoncesFor(c, nonces, |amts|)
  {
    TxnBody(InputHashes(c, inputs), SentOutputs(c, amts, rcpts, nonces.outputs), fee)
  }

  /** The transaction that spends the input at index idx with secret key sk and blinding factor yi. */
  function BuiltTxn(c: Suite, inputs: seq<Output>, sk: nat, yi: nat, idx: nat, amts: seq<nat>, rcpts: seq<PublicKey>,
                    fee: nat, nonces: TxnNonces): Txn
    requires c.ring <= |inputs| && idx < c.ring
    requires |amts| <= |rcpts| && NoncesFor(c, nonces, |amts|)
  {
    var body := BuiltBody(c, inputs, amts, rcpts, fee, nonces);
    Txn(body, SignedBody(c, body, DestKeys(inputs), InputCommits(inputs), sk, yi, idx,
                         OutputBlind(c, rcpts, nonces.outputs, |amts|), nonces.sign))
  }

  /** An index outside the ring gives no transaction. */
  method NewTxn(c: Suite, inputs: seq<Output>, sk: nat, yi: nat, idx: int, amts: seq<nat>, rcpts: seq<PublicKey>,
                fee: nat, nonces: TxnNonces)
    returns (r: Result<Txn>)
    requires c.ring <= |inputs|
    requires |amts| <= |rcpts| && NoncesFor(c, nonces, |amts|)
    ensures r == if 0 <= idx < c.ring then Ok(BuiltTxn(c, inputs, sk, yi, idx, amts, rcpts, fee, nonces)) else Err
  {
    if idx < 0 || idx >= c.ring {
      return Err;
    }
    hide SentOutputs, SentBlindSum, SignedBody, DestKeys, InputCommits, InputHashes;
    var pks, ics, hashes := GatherInputs(c, inputs);
    var outputs, blindSum := BuildOutputs(c, amts, rcpts, nonces.outputs);
    var body := TxnBody(hashes, outputs, fee);
    var sig := OZRSSign(c, body, pks, ics, sk, yi, idx, blindSum, nonces.sign);
    r := Ok(Txn(body, sig));
  }

  /** The public keys, commitments and hashes of a list of inputs. */
  method GatherInputs(c: Suite, inputs: seq<Output>) returns (pks: seq<Point>, ics: seq<Point>, hashes: seq<Digest>)
    ensures pks == DestKeys(inputs) && ics == InputCommits(inputs) && hashes == InputHashes(c, inputs)
  {
    pks, ics, hashes := [], [], [];
    for i := 0 to |inputs|
      invariant |pks| == |ics| == |hashes| == i
      invariant forall j :: 0 <= j < i ==> pks[j] == inputs[j].destKey && ics[j] == inputs[j].commit.point
      invariant forall j :: 0 <= j < i ==> hashes[j] == c.OutputHash(inputs[j])
    {
      pks := pks + [inputs[i].destKey];
      ics := ics + [inputs[i].commit.point];
      hashes := hashes + [c.OutputHash(inputs[i])];
    }
  }

  // --- Honest transactions ---

  function Blindings(c: Suite, rcpts: seq<PublicKey>, nonces: seq<OutputNonce>, count: nat): (ys: seq<nat>)
    requires count <= |rcpts| && count <= |nonces|
    ensures |ys| == count
  {
    seq(count, i requires 0 <= i < count => SentBlind(c, rcpts[i], nonces[i].q))
  }

  lemma {:induction false} BlindingsSum(c: Suite, rcpts: seq<PublicKey>, nonces: seq<OutputNonce>, count: nat, k: nat)
    requires k <= count <= |rcpts| && count <= |nonces|
    ensures SumTo(Blindings(c, rcpts, nonces, count), k) == SentBlindSum(c, rcpts, nonces, k)
  {
    hide SentBlind;
    if k > 0 {
      BlindingsSum(c, rcpts, nonces, count, k - 1);
    }
  }

  function Masked(amts: seq<nat>, bits: nat): (masked: seq<nat>)
    ensures |masked| == |amts|
  {
    seq(|amts|, i requires 0 <= i < |amts| => MaskedAmount(amts[i], bits))
  }

  lemma SentOutputsOpen(c: Suite, amts: seq<nat>, rcpts: seq<PublicKey>, nonces: seq<OutputNonce>)
    requires |amts| <= |rcpts| && |amts| <= |nonces|
    requires forall i :: 0 <= i < |nonces| ==> |nonces[i].bits| == c.bits
    ensures OutputsOpen(SentOutputs(c, amts, rcpts, nonces), Blindings(c, rcpts, nonces, |amts|), Masked(amts, c.bits))
  {
    hide SentBlind, PedersenSum, DestKey, ScalarBaseMult, Commit, MaskedAmount;
    var outputs := SentOutputs(c, amts, rcpts, nonces);
    var ys := Blindings(c, rcpts, nonces, |amts|);
    forall j | 0 <= j < |amts| ensures outputs[j].commit.point == PedersenSum(ys[j], Masked(amts, c.bits)[j]) {
      CommitIsPedersen(c, amts[j], ys[j], nonces[j].bits);
      MaskedAmountIsRemainder(amts[j], c.bits);
    }
  }

  /** The inputs, amounts and fee of an honest spend balance modulo the group order. */
  ghost predicate Balanced(c: Suite, value: nat, amts: seq<nat>, fee: nat) {
    value % ORDER == (Sum(Masked(amts, c.bits)) + fee) % ORDER
  }

  /** What the signer knows about the difference at its own index. */
  lemma HonestDifference(c: Suite, inputs: seq<Output>, idx: nat, key: PrivateKey, value: nat, amts: seq<nat>,
                         rcpts: seq<PublicKey>, fee: nat, nonces: TxnNonces)
    requires idx < |inputs| && Owned(c, Note(inputs[idx], key, value))
    requires |amts| <= |rcpts| && NoncesFor(c, nonces, |amts|)
    requires Balanced(c, value, amts, fee)
    ensures
      var body := BuiltBody(c, inputs, amts, rcpts, fee, nonces);
      Differences(body, InputCommits(inputs))[idx]
        == ScalarBaseMult(ZeroSumKey(ComputeBlindingFactor(c, inputs[idx], key),
                                     OutputBlind(c, rcpts, nonces.outputs, |amts|)))
  {
    hide Add, Neg, PedersenSum, ScalarBaseMult, ComputeBlindingFactor, Owned, Masked, OutputTotal, Differences,
         BuiltBody, Blindings, SentBlindSum, DestKeys, InputCommits, SumTo;
    var body := BuiltBody(c, inputs, amts, rcpts, fee, nonces);
    var ys := Blindings(c, rcpts, nonces.outputs, |amts|);
    OwnedOpens(c, Note(inputs[idx], key, value));
    BuiltParts(c, inputs, amts, rcpts, fee, nonces, idx);
    SentOutputsOpen(c, amts, rcpts, nonces.outputs);
    BlindingsSum(c, rcpts, nonces.outputs, |amts|, |amts|);
    ZeroSumMeansBalance(body, inputs[idx].commit.point, ComputeBlindingFactor(c, inputs[idx], key), value, ys,
                        Masked(amts, c.bits));
  }

  lemma OwnedOpens(c: Suite, note: Note)
    requires Owned(c, note)
    ensures note.output.destKey == ScalarBaseMult(ComputeTxnPrivateKey(c, note.output, note.owner))
    ensures note.output.commit.point == PedersenSum(ComputeBlindingFactor(c, note.output, note.owner), note.value)
  {
  }

  lemma BuiltParts(c: Suite, inputs: seq<Output>, amts: seq<nat>, rcpts: seq<PublicKey>, fee: nat, nonces: TxnNonces,
                   idx: nat)
    requires |amts| <= |rcpts| && NoncesFor(c, nonces, |amts|) && idx < |inputs|
    ensures
      var body := BuiltBody(c, inputs, amts, rcpts, fee, nonces);
      && body.outputs == SentOutputs(c, amts, rcpts, nonces.outputs) && body.fee == fee
      && Differences(body, InputCommits(inputs))[idx] == Add(inputs[idx].commit.point, Neg(OutputTotal(body)))
      && DestKeys(inputs)[idx] == inputs[idx].destKey
  {
    hide SentOutputs, Add, Neg, OutputTotal;
  }

  /**
   An owned input can be spent: with the keys its owner derives and amounts that
   balance, the new transaction passes verification at any index of any ring, and
   so does every range proof in it.
   */
  lemma HonestSpendVerifies(c: Suite, inputs: seq<Output>, idx: nat, key: PrivateKey, value: nat, amts: seq<nat>,
                            rcpts: seq<PublicKey>, fee: nat, nonces: TxnNonces)
    requires c.ring <= |inputs| && idx < c.ring && Owned(c, Note(inputs[idx], key, value))
    requires |amts| <= |rcpts| && NoncesFor(c, nonces, |amts|)
    requires Balanced(c, value, amts, fee)
    ensures
      var txn := BuiltTxn(c, inputs, ComputeTxnPrivateKey(c, inputs[idx], key),
                          ComputeBlindingFactor(c, inputs[idx], key), idx, amts, rcpts, fee, nonces);
      && Accepts(c, txn, DestKeys(inputs), InputCommits(inputs))
      && forall i :: 0 <= i < |txn.body.outputs| ==> Verifies(c, txn.body.outputs[i].commit.proof)
  {
    hide BuiltTxn, ScalarBaseMult, ComputeTxnPrivateKey, ComputeBlindingFactor, Accepts, Verifies, Owned, BuiltBody,
         Differences, OutputBlind, SentOutputs, DestKeys, InputCommits, Balanced;
    var sk, yi := ComputeTxnPrivateKey(c, inputs[idx], key), ComputeBlindingFactor(c, inputs[idx], key);
    OwnedOpens(c, Note(inputs[idx], key, value));
    HonestDifference(c, inputs, idx, key, value, amts, rcpts, fee, nonces);
    BuiltSignatureAccepts(c, inputs, sk, yi, idx, amts, rcpts, fee, nonces);
    SentProofsVerify(c, amts, rcpts, nonces.outputs);
  }

  lemma BuiltSignatureAccepts(c: Suite, inputs: seq<Output>, sk: nat, yi: nat, idx: nat, amts: seq<nat>,
                              rcpts: seq<PublicKey>, fee: nat, nonces: TxnNonces)
    requires c.ring <= |inputs| && idx < c.ring
    requires |amts| <= |rcpts| && NoncesFor(c, nonces, |amts|)
    requires inputs[idx].destKey == ScalarBaseMult(sk)
    requires
      var body := BuiltBody(c, inputs, amts, rcpts, fee, nonces);
      Differences(body, InputCommits(inputs))[idx]
        == ScalarBaseMult(ZeroSumKey(yi, OutputBlind(c, rcpts, nonces.outputs, |amts|)))
    ensures
      var txn := BuiltTxn(c, inputs, sk, yi, idx, amts, rcpts, fee, nonces);
      && Accepts(c, txn, DestKeys(inputs), InputCommits(inputs))
      && txn.body.outputs == SentOutputs(c, amts, rcpts, nonces.outputs)
  {
    hide ScalarBaseMult, SentOutputs, OutputBlind, ZeroSumKey, SignerChallenge, TimeTravel, Differences, ScalarMult,
         InputHashes, InputCommits;
    var body := BuiltBody(c, inputs, amts, rcpts, fee, nonces);
    var z := ZeroSumKey(yi, OutputBlind(c, rcpts, nonces.outputs, |amts|));
    SignedBodyAccepts(c, body, DestKeys(inputs), InputCommits(inputs), sk, yi, idx,
                      OutputBlind(c, rcpts, nonces.outputs, |amts|), nonces.sign);
  }

  lemma SentProofsVerify(c: Suite, amts: seq<nat>, rcpts: seq<PublicKey>, nonces: seq<OutputNonce>)
    requires |amts| <= |rcpts| && |amts| <= |nonces|
    requires forall i :: 0 <= i < |nonces| ==> |nonces[i].bits| == c.bits
    ensures
      var outputs := SentOutputs(c, amts, rcpts, nonces);
      forall i :: 0 <= i < |outputs| ==> Verifies(c, outputs[i].commit.proof)
  {
    hide Verifies, RangeSignature, SentBlind, DestKey, ScalarBaseMult;
    var outputs := SentOutputs(c, amts, rcpts, nonces);
    forall i | 0 <= i < |outputs| ensures Verifies(c, outputs[i].commit.proof) {
      RangeSignVerifies(c, amts[i], SentBlind(c, rcpts[i], nonces[i].q), nonces[i].bits);
    }
  }

  // --- Coinbases ---

  function CoinbaseOutput(c: Suite, to: PublicKey, amount: nat, r: nat): Output {
    Output(ScalarBaseMult(r), DestKey(c, to, r), IDENTITY,
           Commitment(PedersenSum(0, amount), RangeProof(ZERO_DIGEST, seq(c.bits, _ => (0, 0)), [])))
  }

  /** The coinbase of a block: its subsidy plus its fees, added as 64-bit words. */
  function NewCoinbaseTxn(c: Suite, to: PublicKey, seqNum: nat, fee: nat, r: nat): Txn {
    var coinbase := (CoinbaseValue(seqNum) + fee) % UINT64;
    var zeros := seq(c.ring, _ => 0);
    Txn(TxnBody([ZERO_DIGEST], [CoinbaseOutput(c, to, coinbase, r)], 0), OZRS(IDENTITY, ZERO_DIGEST, zeros, zeros))
  }

  /** The coinbase commits to exactly the given amount, with blinding factor zero. */
  predicate VerifyCoinbaseTxn(txn: Txn, coinbase: nat) {
    |txn.body.outputs| > 0 &&
    Add(txn.body.outputs[0].commit.point, Neg(ScalarMult(H, coinbase))) == IDENTITY
  }

  lemma CoinbaseVerifies(c: Suite, to: PublicKey, seqNum: nat, fee: nat, r: nat, coinbase: nat)
    requires coinbase < ORDER
    ensures VerifyCoinbaseTxn(NewCoinbaseTxn(c, to, seqNum, fee, r), coinbase)
       <==> coinbase == (CoinbaseValue(seqNum) + fee) % UINT64
  {
    hide PedersenSum, ScalarMult, DestKey, CoinbaseValue;
    BaseAt(coinbase);
    PedersenSumAt(0, (CoinbaseValue(seqNum) + fee) % UINT64);
    assert NewCoinbaseTxn(c, to, seqNum, fee, r).body.outputs[0].commit.point
        == PedersenSum(0, (CoinbaseValue(seqNum) + fee) % UINT64);
  }

  /** A coinbase output belongs to its address, with blinding factor zero. */
  lemma CoinbaseOwned(c: Suite, key: PrivateKey, amount: nat, r: nat)
    requires GeneratedKey(c, key)
    ensures Owned(c, Note(CoinbaseOutput(c, key.pub, amount, r), key, amount))
  {
    DestKeyRecovered(c, CoinbaseOutput(c, key.pub, amount, r), key, r);
  }

  // --- Blocks ---

  function WrappedFees(txns: seq<Txn>, k: nat): (fees: nat)
    requires k <= |txns|
    ensures fees < UINT64
  {
    if k == 0 then 0 else (WrappedFees(txns, k - 1) + txns[k - 1].body.fee) % UINT64
  }
}
