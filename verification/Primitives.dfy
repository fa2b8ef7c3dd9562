/**
 The records of the system and the hashes taken of them. Hashing, the root of a
 block's transactions and the byte encodings are arbitrary functions carried by a Suite, together with the ring
 size and the number of bits of a range proof, so what is proved holds for every
 choice of them; the deployed sizes are given as constants.
 */
module Primitives {
  import opened Arithmetic
  import opened Bytes
  import opened Curve

  const RANGE_PROOF_LENGTH: BitLength := 34
  const TXN_NUM_INPUTS: RingSize := 8
  const UINT64: nat := 0x1_0000_0000_0000_0000

  type BitLength = k: nat | 1 <= k <= 64 witness 1
  type RingSize = k: nat | k >= 1 witness 1

  datatype RangeProof = RangeProof(e: Digest, ss: seq<(nat, nat)>, pks: seq<(Point, Point)>)

  datatype Commitment = Commitment(point: Point, proof: RangeProof)

  datatype Output = Output(publicKey: Point, destKey: Point, blindSeed: Point, commit: Commitment)

  datatype TxnBody = TxnBody(inputs: seq<Digest>, outputs: seq<Output>, fee: nat)

  datatype OZRS = OZRS(preimage: Point, e: Digest, rs: seq<nat>, ss: seq<nat>)

  datatype Txn = Txn(body: TxnBody, sig: OZRS)

  datatype Header = Header(seqNum: nat, prevHash: Digest, merkleRoot: Digest, time: int, difficulty: nat, nonce: nat)

  datatype Block = Block(header: Header, txns: seq<Txn>)

  datatype PublicKey = PublicKey(tpk: Point, ppk: Point)

  datatype PrivateKey = PrivateKey(pub: PublicKey, tsk: nat, psk: nat)

  datatype Result<+T> = Ok(value: T) | Err

  /** The answer that makes the nonce k fit the challenge e. */
  function TimeTravel(blind: nat, k: nat, e: Digest): nat {
    Int(e) * blind + k
  }

  datatype Suite = Suite(
    bits: BitLength,
    ring: RingSize,
    hash: seq<Byte> -> Digest,
    encode: Point -> seq<Byte>,
    bodyJson: TxnBody -> seq<Byte>,
    outputJson: Output -> seq<Byte>,
    headerJson: Header -> seq<Byte>,
    merkle: seq<Txn> -> Digest)
  {
    function HashPt(m: Digest, p: Point): Digest {
      hash(m + encode(p))
    }

    function HashToPt(data: seq<Byte>): Point {
      ScalarBaseMult(Int(hash(data)))
    }

    /** The point a key hashes to, on which its spent image is built. */
    function ImageBase(pk: Point): Point {
      HashToPt(encode(pk))
    }

    function Preimage(pk: Point, sk: nat): Point {
      ScalarMult(ImageBase(pk), sk)
    }

    function OutputHash(o: Output): Digest {
      hash(outputJson(o))
    }

    function HeaderHash(h: Header): Digest {
      hash(headerJson(h))
    }

    function BlockHash(b: Block): Digest {
      HeaderHash(b.header)
    }

    /** The key under which a transaction's spent image is recorded. */
    function ImageHash(t: Txn): Digest {
      hash(encode(t.sig.preimage))
    }
  }

  /** The sizes the system is deployed with: 34-bit amounts and eight inputs. */
  predicate Deployed(c: Suite) {
    c.bits == RANGE_PROOF_LENGTH && c.ring == TXN_NUM_INPUTS
  }

  /** Amounts of any permitted bit length are words, and words are far below the order. */
  lemma BitsFit(c: Suite)
    ensures Pow2(c.bits) <= UINT64 < ORDER
  {
    hide Pow2;
    WordPower(64);
    if c.bits < 64 {
      PowMonotone(c.bits, 64);
    }
  }

  lemma WordPower(k: nat)
    requires k == 64
    ensures Pow2(k) == UINT64
  {
    hide Pow2;
    SmallPower(k - 60);
    PowSplit(4, 4);
    PowSplit(8, 8);
    PowSplit(16, 16);
    PowSplit(32, 32);
  }

  lemma SmallPower(k: nat)
    requires k == 4
    ensures Pow2(k) == 16
  {
  }
}
