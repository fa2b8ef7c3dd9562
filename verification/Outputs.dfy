/**
 Stealth outputs: what a sender builds for an address, and what the owner of the
 address recovers from it.
 */
module Outputs {
  import opened Arithmetic
  import opened Bytes
  import opened Curve
  import opened Primitives
  import opened RangeProofs

  /** The random values drawn for one output. */
  datatype OutputNonce = OutputNonce(r: nat, q: nat, bits: seq<BitNonce>)

  /** An output together with the key that owns it and the amount committed in it. */
  datatype Note = Note(output: Output, owner: PrivateKey, value: nat)

  function NewPrivateKey(c: Suite, tsk: nat, psk: nat): PrivateKey {
    PrivateKey(PublicKey(ScalarBaseMult(tsk), ScalarBaseMult(psk)), tsk, psk)
  }

  predicate GeneratedKey(c: Suite, key: PrivateKey) {
    key == NewPrivateKey(c, key.tsk, key.psk)
  }

  // --- The sender ---

  function DestKey(c: Suite, to: PublicKey, r: nat): Point {
    Add(ScalarBaseMult(Int(c.hash(c.encode(ScalarMult(to.tpk, r))))), to.ppk)
  }

  function SentBlind(c: Suite, to: PublicKey, q: nat): nat {
    Int(c.hash(c.encode(ScalarMult(to.ppk, q))))
  }

  function SentOutput(c: Suite, amt: nat, to: PublicKey, nonce: OutputNonce): Output
    requires |nonce.bits| == c.bits
  {
    Output(ScalarBaseMult(nonce.r), DestKey(c, to, nonce.r), ScalarBaseMult(nonce.q),
           Commit(c, amt, SentBlind(c, to, nonce.q), nonce.bits))
  }

  function SentOutputs(c: Suite, amts: seq<nat>, rcpts: seq<PublicKey>, nonces: seq<OutputNonce>): (os: seq<Output>)
    requires |amts| <= |rcpts| && |amts| <= |nonces|
    requires forall i :: 0 <= i < |nonces| ==> |nonces[i].bits| == c.bits
    ensures |os| == |amts|
  {
    seq(|amts|, i requires 0 <= i < |amts| => SentOutput(c, amts[i], rcpts[i], nonces[i]))
  }

  function SentBlindSum(c: Suite, rcpts: seq<PublicKey>, nonces: seq<OutputNonce>, count: nat): nat
    requires count <= |rcpts| && count <= |nonces|
  {
    if count == 0 then 0 else
      SentBlindSum(c, rcpts, nonces, count - 1) + SentBlind(c, rcpts[count - 1], nonces[count - 1].q)
  }

  method BuildOutputs(c: Suite, amts: seq<nat>, rcpts: seq<PublicKey>, nonces: seq<OutputNonce>)
    returns (outputs: seq<Output>, blindSum: nat)
    requires |amts| <= |rcpts| && |amts| <= |nonces|
    requires forall i :: 0 <= i < |nonces| ==> |nonces[i].bits| == c.bits
    ensures outputs == SentOutputs(c, amts, rcpts, nonces)
    ensures blindSum == SentBlindSum(c, rcpts, nonces, |amts|) % ORDER
  {
    hide SentOutput, SentBlind;
    outputs, blindSum := [], 0;
    for i := 0 to |amts|
      invariant |outputs| == i
      invariant forall j :: 0 <= j < i ==> outputs[j] == SentOutput(c, amts[j], rcpts[j], nonces[j])
      invariant blindSum == SentBlindSum(c, rcpts, nonces, i) % ORDER
    {
      var output, blind := BuildOutput(c, amts[i], rcpts[i], nonces[i]);
      blindSum := (blindSum + blind) % ORDER;
      outputs := outputs + [output];
    }
    assert outputs == SentOutputs(c, amts, rcpts, nonces);
  }

  method BuildOutput(c: Suite, amt: nat, to: PublicKey, nonce: OutputNonce) returns (output: Output, blind: nat)
    requires |nonce.bits| == c.bits
    ensures output == SentOutput(c, amt, to, nonce)
    ensures blind == SentBlind(c, to, nonce.q)
  {
    var pk := ScalarBaseMult(nonce.r);
    var sec := ScalarMult(to.tpk, nonce.r);
    var dk := Add(ScalarBaseMult(Int(c.hash(c.encode(sec)))), to.ppk);
    var seed := ScalarBaseMult(nonce.q);
    var qB := ScalarMult(to.ppk, nonce.q);
    blind := Int(c.hash(c.encode(qB)));
    var commit := RangeCommit(c, amt, blind, nonce.bits);
    output := Output(pk, dk, seed, commit);
  }

  // --- The owner ---

  function HashSharedSecret(c: Suite, o: Output, tsk: nat): Digest {
    c.hash(c.encode(ScalarMult(o.publicKey, tsk)))
  }

  predicate BelongsToMe(c: Suite, o: Output, tsk: nat, ppk: Point) {
    Add(ScalarBaseMult(Int(HashSharedSecret(c, o, tsk))), ppk) == o.destKey
  }

  function ComputeTxnPrivateKey(c: Suite, o: Output, key: PrivateKey): nat {
    Int(HashSharedSecret(c, o, key.tsk)) + key.psk
  }

  /** A blind seed at the identity marks a coinbase output, whose blinding factor is zero. */
  function ComputeBlindingFactor(c: Suite, o: Output, key: PrivateKey): nat {
    if o.blindSeed == IDENTITY then 0 else Int(c.hash(c.encode(ScalarMult(o.blindSeed, key.psk))))
  }

  /** The owner recognises the note, holds its secret key and can open its commitment. */
  ghost predicate Owned(c: Suite, note: Note) {
    && GeneratedKey(c, note.owner)
    && BelongsToMe(c, note.output, note.owner.tsk, note.owner.pub.ppk)
    && note.output.destKey == ScalarBaseMult(ComputeTxnPrivateKey(c, note.output, note.owner))
    && note.output.commit.point == PedersenSum(ComputeBlindingFactor(c, note.output, note.owner), note.value)
  }

  /** Sender and owner reach the same destination key, and the owner knows its logarithm. */
  lemma DestKeyRecovered(c: Suite, o: Output, key: PrivateKey, r: nat)
    requires GeneratedKey(c, key)
    requires o.publicKey == ScalarBaseMult(r) && o.destKey == DestKey(c, key.pub, r)
    ensures BelongsToMe(c, o, key.tsk, key.pub.ppk)
    ensures o.destKey == ScalarBaseMult(ComputeTxnPrivateKey(c, o, key))
  {
    MultCommutes(G, r, key.tsk);
    MultAdd(G, Int(HashSharedSecret(c, o, key.tsk)), key.psk);
  }

  /** An output belongs to a key exactly when the private key computed for it gives its destination key. */
  lemma BelongsMeansSpendable(c: Suite, o: Output, key: PrivateKey)
    requires GeneratedKey(c, key)
    ensures BelongsToMe(c, o, key.tsk, key.pub.ppk)
       <==> o.destKey == ScalarBaseMult(ComputeTxnPrivateKey(c, o, key))
  {
    hide ScalarBaseMult, HashSharedSecret, Add;
    MultAdd(G, Int(HashSharedSecret(c, o, key.tsk)), key.psk);
    BaseMultAdds(Int(HashSharedSecret(c, o, key.tsk)), key.psk);
  }

  lemma BaseMultAdds(k: nat, l: nat)
    ensures ScalarBaseMult(k + l) == Add(ScalarBaseMult(k), ScalarBaseMult(l))
  {
    MultAdd(G, k, l);
  }

  /**
   Two destination keys of one address are equal only if the shared points or the hashes
   of these are equal modulo the order: the address itself does not show.
   */
  lemma DestKeysDiffer(c: Suite, to: PublicKey, r: nat, s: nat)
    ensures DestKey(c, to, r) == DestKey(c, to, s)
       <==> Int(c.hash(c.encode(ScalarMult(to.tpk, r)))) % ORDER == Int(c.hash(c.encode(ScalarMult(to.tpk, s)))) % ORDER
  {
    hide ScalarMult, Int;
    BaseAt(Int(c.hash(c.encode(ScalarMult(to.tpk, r)))));
    BaseAt(Int(c.hash(c.encode(ScalarMult(to.tpk, s)))));
  }

  /** The blinding factor of an output is the hash of what the seed and the receiver's spending key share. */
  lemma SentBlindIsShared(c: Suite, key: PrivateKey, q: nat)
    requires GeneratedKey(c, key)
    ensures SentBlind(c, key.pub, q) == Int(c.hash(c.encode(ScalarMult(ScalarBaseMult(q), key.psk))))
  {
    hide Int, ScalarMult;
    MultCommutes(G, q, key.psk);
  }

  /** The owner recovers the sender's blinding factor exactly when the blind seed is not the identity,
      except when that factor happens to be the zero reserved for coinbase outputs. */
  lemma BlindRecovered(c: Suite, o: Output, key: PrivateKey, q: nat)
    requires GeneratedKey(c, key)
    requires o.blindSeed == ScalarBaseMult(q)
    ensures ComputeBlindingFactor(c, o, key) == SentBlind(c, key.pub, q)
       <==> q % ORDER != 0 || SentBlind(c, key.pub, q) == 0
  {
    MultCommutes(G, q, key.psk);
    BaseAt(q);
  }

  /** What a sender builds for a generated address belongs to its owner. */
  lemma SentOutputOwned(c: Suite, amt: nat, key: PrivateKey, nonce: OutputNonce)
    requires GeneratedKey(c, key)
    requires |nonce.bits| == c.bits && nonce.q % ORDER != 0
    ensures Owned(c, Note(SentOutput(c, amt, key.pub, nonce), key, amt % Pow2(c.bits)))
  {
    var o := SentOutput(c, amt, key.pub, nonce);
    DestKeyRecovered(c, o, key, nonce.r);
    BlindRecovered(c, o, key, nonce.q);
    CommitIsPedersen(c, amt, SentBlind(c, key.pub, nonce.q), nonce.bits);
  }

  // --- Reading an amount back ---

  /** The key less blind*G is the identity. */
  predicate OpensToZero(c: Suite, pk: Point, blind: nat) {
    Add(pk, Neg(ScalarBaseMult(blind))) == IDENTITY
  }

  /** What one bit adds to the amount; none of the two keys matching is an error. */
  function BitValue(c: Suite, keys: (Point, Point), blind: nat, i: nat, asWritten: bool): Result<nat> {
    if OpensToZero(c, keys.0, blind) then Ok(if asWritten then Pow2(i) else 0)
    else if OpensToZero(c, keys.1, blind) then Ok(if asWritten then 0 else Pow2(i))
    else Err
  }

  function DecryptBits(c: Suite, pks: seq<(Point, Point)>, blinds: seq<nat>, k: nat, asWritten: bool): (r: Result<nat>)
    requires k <= |pks| && k <= |blinds|
    ensures r.Ok? ==> r.value < Pow2(k)
  {
    if k == 0 then Ok(0) else
      match (DecryptBits(c, pks, blinds, k - 1, asWritten), BitValue(c, pks[k - 1], blinds[k - 1], k - 1, asWritten))
      case (Ok(total), Ok(value)) => Ok(total + value)
      case _ => Err
  }

  lemma DecryptBitsFails(c: Suite, pks: seq<(Point, Point)>, blinds: seq<nat>, i: nat, k: nat, asWritten: bool)
    requires i < k <= |pks| && k <= |blinds|
    requires BitValue(c, pks[i], blinds[i], i, asWritten).Err?
    ensures DecryptBits(c, pks, blinds, k, asWritten).Err?
  {
  }

  /**
   Recovers the amount of an output from its blinding factor. With asWritten the
   bit whose first key matches adds its value; without, the bit whose second key
   matches does, as the design has it.
   */
  method DecryptAmount(c: Suite, pks: seq<(Point, Point)>, yOut: nat, asWritten: bool) returns (r: Result<nat>)
    requires |pks| == c.bits
    ensures r == DecryptBits(c, pks, Blinds(c, yOut), c.bits, asWritten)
  {
    hide BitValue;
    var total := 0;
    var blinds := ComputeBlinds(c, yOut);
    for i := 0 to |blinds|
      invariant DecryptBits(c, pks, blinds, i, asWritten) == Ok(total)
    {
      var bit := DecryptBit(c, pks[i], blinds[i], i, asWritten);
      if bit.Ok? {
        total := total + bit.value;
        continue;
      }
      DecryptBitsFails(c, pks, blinds, i, c.bits, asWritten);
      return Err;
    }
    r := Ok(total);
  }

  method DecryptBit(c: Suite, keys: (Point, Point), blind: nat, i: nat, asWritten: bool) returns (r: Result<nat>)
    ensures r == BitValue(c, keys, blind, i, asWritten)
  {
    hide OpensToZero;
    var pair := [keys.0, keys.1];
    for j := 0 to 2
      invariant forall l :: 0 <= l < j ==> !OpensToZero(c, pair[l], blind)
    {
      if OpensToZero(c, pair[j], blind) {
        var counted := if asWritten then 1 - j else j;
        assert pair[0] == keys.0 && pair[1] == keys.1;
        return Ok(Pow2(i) * counted);
      }
    }
    assert pair[0] == keys.0 && pair[1] == keys.1;
    r := Err;
  }

  /** Of a bit's two keys exactly one opens with the blinding factor: the first when the bit is clear. */
  lemma OneKeyOpens(c: Suite, amt: nat, i: nat, blind: nat)
    requires Pow2(i) < ORDER
    ensures OpensToZero(c, PKsForAmt(c, amt, i, blind).0, blind) <==> !Bit(amt, i)
    ensures OpensToZero(c, PKsForAmt(c, amt, i, blind).1, blind) <==> Bit(amt, i)
  {
    PedersenSumAt(blind, MaskedBit(amt, i));
    PedersenSumAt(0, Pow2(i));
    BaseAt(blind);
  }

  lemma {:induction false} DecryptHonestBits(c: Suite, amt: nat, blinds: seq<nat>, k: nat)
    requires k <= |blinds| && Pow2(k) < ORDER
    ensures DecryptBits(c, AmountKeys(c, amt, blinds), blinds, k, false) == Ok(MaskedAmount(amt, k))
    ensures DecryptBits(c, AmountKeys(c, amt, blinds), blinds, k, true) == Ok(Pow2(k) - 1 - MaskedAmount(amt, k))
  {
    hide BitValue, PKsForAmt;
    if k > 0 {
      DecryptHonestBits(c, amt, blinds, k - 1);
      HonestBit(c, amt, k - 1, blinds[k - 1]);
      assert AmountKeys(c, amt, blinds)[k - 1] == PKsForAmt(c, amt, k - 1, blinds[k - 1]);
    }
  }

  lemma HonestBit(c: Suite, amt: nat, i: nat, blind: nat)
    requires Pow2(i) < ORDER
    ensures BitValue(c, PKsForAmt(c, amt, i, blind), blind, i, false) == Ok(MaskedBit(amt, i))
    ensures BitValue(c, PKsForAmt(c, amt, i, blind), blind, i, true) == Ok(Pow2(i) - MaskedBit(amt, i))
  {
    OneKeyOpens(c, amt, i, blind);
  }

  lemma CommittedKeys(c: Suite, amt: nat, y: nat, nonces: seq<BitNonce>)
    requires |nonces| == c.bits
    ensures Commit(c, amt, y, nonces).proof.pks == AmountKeys(c, amt, Blinds(c, y))
  {
  }

  /**
   All blinds but the first and the last are the hash of the empty string, so anyone can
   read these bits of an honest commitment.
   */
  lemma MiddleBitsArePublic(c: Suite, amt: nat, y: nat, nonces: seq<BitNonce>, i: nat)
    requires |nonces| == c.bits && 0 < i < c.bits - 1
    ensures
      var keys := Commit(c, amt, y, nonces).proof.pks;
      i < |keys| && (OpensToZero(c, keys[i].0, Int(c.hash([]))) <==> !Bit(amt, i))
  {
    hide Bit, OpensToZero, PKsForAmt, Int;
    BlindAt(c, y, i);
    CommittedKeys(c, amt, y, nonces);
    BitsFit(c);
    PowFits(c, i);
    OneKeyOpens(c, amt, i, Int(c.hash([])));
  }

  lemma PowFits(c: Suite, i: nat)
    requires i < c.bits
    ensures Pow2(i) < ORDER
  {
    hide Pow2;
    BitsFit(c);
    PowMonotone(i, c.bits);
  }

  /** Decryption inverts commitment when the second key is the one that counts... */
  lemma DecryptInvertsCommit(c: Suite, amt: nat, y: nat, nonces: seq<BitNonce>)
    requires |nonces| == c.bits
    ensures
      var r := DecryptBits(c, Commit(c, amt, y, nonces).proof.pks, Blinds(c, y), c.bits, false);
      r == Ok(MaskedAmount(amt, c.bits)) && (r == Ok(amt) <==> amt < Pow2(c.bits))
  {
    hide Commit, AmountKeys, Blinds, DecryptBits, Pow2, MaskedAmount;
    CommittedKeys(c, amt, y, nonces);
    BitsFit(c);
    DecryptHonestBits(c, amt, Blinds(c, y), c.bits);
    MaskedAmountExact(amt, c.bits);
  }

  /** ...while the test as written returns the complement, which is never the committed amount. */
  lemma DecryptAsWrittenComplements(c: Suite, amt: nat, y: nat, nonces: seq<BitNonce>)
    requires |nonces| == c.bits
    ensures
      var r := DecryptBits(c, Commit(c, amt, y, nonces).proof.pks, Blinds(c, y), c.bits, true);
      r == Ok(Pow2(c.bits) - 1 - MaskedAmount(amt, c.bits)) && r != Ok(MaskedAmount(amt, c.bits)) && r != Ok(amt)
  {
    hide Commit, AmountKeys, Blinds, DecryptBits, Pow2, MaskedAmount;
    CommittedKeys(c, amt, y, nonces);
    BitsFit(c);
    DecryptHonestBits(c, amt, Blinds(c, y), c.bits);
    ComplementDiffers(amt, c.bits);
  }

  lemma ComplementDiffers(amt: nat, bits: nat)
    requires bits > 0
    ensures Pow2(bits) - 1 - MaskedAmount(amt, bits) >= 0
    ensures Pow2(bits) - 1 - MaskedAmount(amt, bits) != MaskedAmount(amt, bits)
    ensures Pow2(bits) - 1 - MaskedAmount(amt, bits) != amt
  {
    MaskedAmountExact(amt, bits);
    assert Pow2(bits) == 2 * Pow2(bits - 1);
  }
}
