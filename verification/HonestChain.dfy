/**
 Whole chains of honest payments: every output can be spent by its owner, every
 transaction and coinbase passes verification, and the value left unspent is
 exactly what the subsidies have issued.
 */
module HonestChain {
  import opened Arithmetic
  import opened Bytes
  import opened Curve
  import opened Primitives
  import opened RangeProofs
  import opened Outputs
  import opened RingSignature
  import opened Transactions
  import opened Subsidy

  /** One spend: the notes that form its ring, the spent one's place in it, and what is paid to whom. */
  datatype Payment = Payment(ring: seq<nat>, idx: nat, amts: seq<nat>, rcpts: seq<PrivateKey>, fee: nat,
                             nonces: TxnNonces)

  datatype BlockPlan = BlockPlan(miner: PrivateKey, r: nat, payments: seq<Payment>)

  /** Every note ever created, the ones spent so far, and the number of blocks. */
  datatype Ledger = Ledger(notes: seq<Note>, spent: set<nat>, height: nat)

  const EMPTY := Ledger([], {}, 0)

  // --- Payments ---

  ghost predicate ValidPayment(c: Suite, notes: seq<Note>, p: Payment) {
    && |p.ring| == c.ring && p.idx < c.ring
    && (forall i :: 0 <= i < |p.ring| ==> p.ring[i] < |notes|)
    && |p.amts| == |p.rcpts| && NoncesFor(c, p.nonces, |p.amts|)
    && (forall i :: 0 <= i < |p.amts| ==> p.amts[i] < Pow2(c.bits))
    && (forall i :: 0 <= i < |p.rcpts| ==> GeneratedKey(c, p.rcpts[i]))
    && (forall i :: 0 <= i < |p.rcpts| ==> p.nonces.outputs[i].q % ORDER != 0)
    && p.fee < UINT64
    && notes[p.ring[p.idx]].value == Sum(p.amts) + p.fee
  }

  function Inputs(notes: seq<Note>, p: Payment): (inputs: seq<Output>)
    requires forall i :: 0 <= i < |p.ring| ==> p.ring[i] < |notes|
    ensures |inputs| == |p.ring|
  {
    seq(|p.ring|, i requires 0 <= i < |p.ring| => notes[p.ring[i]].output)
  }

  function Addresses(keys: seq<PrivateKey>): (pubs: seq<PublicKey>)
    ensures |pubs| == |keys|
  {
    seq(|keys|, i requires 0 <= i < |keys| => keys[i].pub)
  }

  ghost function Spends(c: Suite, notes: seq<Note>, p: Payment): (i: nat)
    requires ValidPayment(c, notes, p)
    ensures i < |notes|
  {
    p.ring[p.idx]
  }

  /** The transaction the owner of the spent note builds, with the keys recovered from the note. */
  ghost function PaymentTxn(c: Suite, notes: seq<Note>, p: Payment): Txn
    requires ValidPayment(c, notes, p)
  {
    var note := notes[Spends(c, notes, p)];
    BuiltTxn(c, Inputs(notes, p), ComputeTxnPrivateKey(c, note.output, note.owner),
             ComputeBlindingFactor(c, note.output, note.owner), p.idx, p.amts, Addresses(p.rcpts), p.fee, p.nonces)
  }

  ghost function NewNotes(c: Suite, notes: seq<Note>, p: Payment): (created: seq<Note>)
    requires ValidPayment(c, notes, p)
    ensures |created| == |p.amts|
    ensures forall i :: 0 <= i < |created| ==> created[i].value == p.amts[i]
  {
    seq(|p.amts|, i requires 0 <= i < |p.amts| =>
      Note(SentOutput(c, p.amts[i], p.rcpts[i].pub, p.nonces.outputs[i]), p.rcpts[i], p.amts[i]))
  }

  lemma SmallAmountsBalance(c: Suite, value: nat, amts: seq<nat>, fee: nat)
    requires forall i :: 0 <= i < |amts| ==> amts[i] < Pow2(c.bits)
    requires value == Sum(amts) + fee
    ensures Balanced(c, value, amts, fee)
  {
    forall i | 0 <= i < |amts| ensures Masked(amts, c.bits)[i] == amts[i] {
      MaskedAmountExact(amts[i], c.bits);
    }
    assert Masked(amts, c.bits) == amts;
  }

  /** The transaction passes signature verification against its ring, and its range proofs verify. */
  ghost predicate PaymentAccepted(c: Suite, notes: seq<Note>, p: Payment)
    requires ValidPayment(c, notes, p)
  {
    var txn, inputs := PaymentTxn(c, notes, p), Inputs(notes, p);
    && Accepts(c, txn, DestKeys(inputs), InputCommits(inputs))
    && forall i :: 0 <= i < |txn.body.outputs| ==> Verifies(c, txn.body.outputs[i].commit.proof)
  }

  /** A payment from an owned note is accepted. */
  lemma PaymentVerifies(c: Suite, notes: seq<Note>, p: Payment)
    requires ValidPayment(c, notes, p) && Owned(c, notes[Spends(c, notes, p)])
    ensures PaymentAccepted(c, notes, p)
  {
    hide Owned, Balanced, Accepts, Verifies, BuiltTxn, GeneratedKey, DestKeys, InputCommits;
    var note := notes[Spends(c, notes, p)];
    SmallAmountsBalance(c, note.value, p.amts, p.fee);
    assert Note(Inputs(notes, p)[p.idx], note.owner, note.value) == note;
    HonestSpendVerifies(c, Inputs(notes, p), p.idx, note.owner, note.value, p.amts, Addresses(p.rcpts), p.fee,
                        p.nonces);
  }

  lemma AmountLimit()
    ensures Pow2(34) == 17179869184
  {
    assert Pow2(4) == 16;
    PowSplit(4, 4);
    PowSplit(8, 8);
    PowSplit(16, 16);
    PowSplit(32, 2);
  }

  /** With the deployed sizes: eight inputs, and amounts below 17179869184. */
  lemma DeployedPaymentVerifies(c: Suite, notes: seq<Note>, p: Payment)
    requires Deployed(c) && |p.ring| == 8 && p.idx < 8 && (forall i :: 0 <= i < 8 ==> p.ring[i] < |notes|)
    requires |p.amts| == |p.rcpts| && NoncesFor(c, p.nonces, |p.amts|)
    requires forall i :: 0 <= i < |p.amts| ==>
      p.amts[i] < 17179869184 && GeneratedKey(c, p.rcpts[i]) && p.nonces.outputs[i].q % ORDER != 0
    requires p.fee < UINT64 && notes[p.ring[p.idx]].value == Sum(p.amts) + p.fee && Owned(c, notes[p.ring[p.idx]])
    ensures ValidPayment(c, notes, p) && PaymentAccepted(c, notes, p)
  {
    hide Owned, PaymentAccepted, GeneratedKey;
    AmountLimit();
    PaymentVerifies(c, notes, p);
  }

  /** What a payment creates is owned by its recipients. */
  lemma CreatedOwned(c: Suite, notes: seq<Note>, p: Payment)
    requires ValidPayment(c, notes, p)
    ensures forall i :: 0 <= i < |p.amts| ==> Owned(c, NewNotes(c, notes, p)[i])
  {
    hide Owned, SentOutput, GeneratedKey;
    forall i | 0 <= i < |p.amts| ensures Owned(c, NewNotes(c, notes, p)[i]) {
      SentOutputOwned(c, p.amts[i], p.rcpts[i], p.nonces.outputs[i]);
      SmallRemainder(p.amts[i], Pow2(c.bits));
    }
  }

  // --- Blocks ---

  /** The spent image of a note, as its owner computes it. */
  ghost function SpentImage(c: Suite, note: Note): Digest {
    c.hash(c.encode(c.Preimage(note.output.destKey, ComputeTxnPrivateKey(c, note.output, note.owner))))
  }

  /** Every payment passes on its own against the state before the block. */
  ghost predicate PaymentsPass(c: Suite, l: Ledger, payments: seq<Payment>) {
    forall j :: 0 <= j < |payments| ==>
      ValidPayment(c, l.notes, payments[j]) &&
      forall s :: s in l.spent && s < |l.notes| ==>
        SpentImage(c, l.notes[s]) != SpentImage(c, l.notes[Spends(c, l.notes, payments[j])])
  }

  ghost predicate DistinctImages(c: Suite, l: Ledger, payments: seq<Payment>)
    requires PaymentsPass(c, l, payments)
  {
    forall i, j :: 0 <= i < j < |payments| ==>
      SpentImage(c, l.notes[Spends(c, l.notes, payments[i])]) != SpentImage(c, l.notes[Spends(c, l.notes, payments[j])])
  }

  ghost predicate GoodBlock(c: Suite, l: Ledger, plan: BlockPlan) {
    && GeneratedKey(c, plan.miner)
    && PaymentsPass(c, l, plan.payments)
    && DistinctImages(c, l, plan.payments)
  }

  ghost function PaymentTxns(c: Suite, l: Ledger, payments: seq<Payment>): (txns: seq<Txn>)
    requires PaymentsPass(c, l, payments)
    ensures |txns| == |payments|
  {
    seq(|payments|, j requires 0 <= j < |payments| => PaymentTxn(c, l.notes, payments[j]))
  }

  function FeeTotal(payments: seq<Payment>, k: nat): nat
    requires k <= |payments|
  {
    if k == 0 then 0 else FeeTotal(payments, k - 1) + payments[k - 1].fee
  }

  /** What the coinbase of the next block holds, fees and sum taken as 64-bit words. */
  ghost function CoinbaseAmount(c: Suite, l: Ledger, payments: seq<Payment>): nat
    requires PaymentsPass(c, l, payments)
  {
    (CoinbaseValue(l.height) + WrappedFees(PaymentTxns(c, l, payments), |payments|)) % UINT64
  }

  ghost function CoinbaseNote(c: Suite, l: Ledger, plan: BlockPlan): (note: Note)
    requires PaymentsPass(c, l, plan.payments)
    ensures note.value == CoinbaseAmount(c, l, plan.payments)
  {
    var amount := CoinbaseAmount(c, l, plan.payments);
    Note(CoinbaseOutput(c, plan.miner.pub, amount, plan.r), plan.miner, amount)
  }

  /** The notes once the coinbase and the first k payments are in. */
  ghost function NotesAfter(c: Suite, l: Ledger, plan: BlockPlan, k: nat): (notes: seq<Note>)
    requires PaymentsPass(c, l, plan.payments) && k <= |plan.payments|
    ensures |l.notes| <= |notes| && notes[..|l.notes|] == l.notes
  {
    if k == 0 then l.notes + [CoinbaseNote(c, l, plan)] else
      NotesAfter(c, l, plan, k - 1) + NewNotes(c, l.notes, plan.payments[k - 1])
  }

  ghost function SpentAfter(c: Suite, l: Ledger, payments: seq<Payment>, k: nat): set<nat>
    requires PaymentsPass(c, l, payments) && k <= |payments|
  {
    if k == 0 then l.spent else SpentAfter(c, l, payments, k - 1) + {Spends(c, l.notes, payments[k - 1])}
  }

  ghost function Extend(c: Suite, l: Ledger, plan: BlockPlan): Ledger
    requires PaymentsPass(c, l, plan.payments)
  {
    Ledger(NotesAfter(c, l, plan, |plan.payments|), SpentAfter(c, l, plan.payments, |plan.payments|), l.height + 1)
  }

  // --- Value ---

  /** The value of the unspent notes among the first k. */
  ghost function Unspent(notes: seq<Note>, spent: set<nat>, k: nat): nat
    requires k <= |notes|
  {
    if k == 0 then 0 else Unspent(notes, spent, k - 1) + if k - 1 in spent then 0 else notes[k - 1].value
  }

  ghost function Total(l: Ledger): nat {
    Unspent(l.notes, l.spent, |l.notes|)
  }

  ghost predicate Below(spent: set<nat>, n: nat) {
    forall s :: s in spent ==> s < n
  }

  ghost predicate SpentInRange(l: Ledger) {
    Below(l.spent, |l.notes|)
  }

  lemma {:induction false} UnspentAfterSpend(notes: seq<Note>, spent: set<nat>, i: nat, k: nat)
    requires i < |notes| && k <= |notes|
    ensures Unspent(notes, spent, k)
         == Unspent(notes, spent + {i}, k) + if i < k && i !in spent then notes[i].value else 0
  {
    if k > 0 {
      UnspentAfterSpend(notes, spent, i, k - 1);
    }
  }

  lemma {:induction false} UnspentPrefix(notes: seq<Note>, more: seq<Note>, spent: set<nat>, k: nat)
    requires k <= |notes|
    ensures Unspent(notes + more, spent, k) == Unspent(notes, spent, k)
  {
    if k > 0 {
      UnspentPrefix(notes, more, spent, k - 1);
    }
  }

  /** New notes add their whole value. */
  lemma {:induction false} UnspentAppend(notes: seq<Note>, more: seq<Note>, spent: set<nat>, amts: seq<nat>, j: nat)
    requires |more| == |amts| && j <= |more|
    requires Below(spent, |notes|)
    requires forall i :: 0 <= i < |more| ==> more[i].value == amts[i]
    ensures Unspent(notes + more, spent, |notes| + j) == Unspent(notes, spent, |notes|) + SumTo(amts, j)
  {
    if j == 0 {
      UnspentPrefix(notes, more, spent, |notes|);
    } else {
      UnspentAppend(notes, more, spent, amts, j - 1);
      assert |notes| + j - 1 !in spent;
    }
  }

  /** The value of payments that spend a note already spent earlier in the same block. */
  ghost function Repeated(c: Suite, l: Ledger, payments: seq<Payment>, k: nat): nat
    requires PaymentsPass(c, l, payments) && k <= |payments|
  {
    if k == 0 then 0 else
      var i := Spends(c, l.notes, payments[k - 1]);
      Repeated(c, l, payments, k - 1) + if i in SpentAfter(c, l, payments, k - 1) then l.notes[i].value else 0
  }

  lemma {:induction false} SpentAfterInRange(c: Suite, l: Ledger, payments: seq<Payment>, k: nat)
    requires PaymentsPass(c, l, payments) && k <= |payments| && SpentInRange(l)
    ensures Below(SpentAfter(c, l, payments, k), |l.notes|)
  {
    if k > 0 {
      SpentAfterInRange(c, l, payments, k - 1);
    }
  }

  /** The books after k payments: each one releases its note and takes its fee out of circulation. */
  lemma {:induction false} PaymentsAccount(c: Suite, l: Ledger, plan: BlockPlan, k: nat)
    requires PaymentsPass(c, l, plan.payments) && k <= |plan.payments| && SpentInRange(l)
    ensures
      var notes := NotesAfter(c, l, plan, k);
      Unspent(notes, SpentAfter(c, l, plan.payments, k), |notes|) + FeeTotal(plan.payments, k)
        == Total(l) + CoinbaseAmount(c, l, plan.payments) + Repeated(c, l, plan.payments, k)
  {
    hide ValidPayment, CoinbaseAmount, NewNotes, PaymentsPass;
    if k == 0 {
      UnspentAppend(l.notes, [CoinbaseNote(c, l, plan)], l.spent, [CoinbaseAmount(c, l, plan.payments)], 1);
    } else {
      PaymentsAccount(c, l, plan, k - 1);
      SpentAfterInRange(c, l, plan.payments, k - 1);
      OnePayment(c, l, plan.payments, NotesAfter(c, l, plan, k - 1), k);
    }
  }

  lemma OnePayment(c: Suite, l: Ledger, payments: seq<Payment>, before: seq<Note>, k: nat)
    requires PaymentsPass(c, l, payments) && 0 < k <= |payments|
    requires |l.notes| <= |before| && before[..|l.notes|] == l.notes
    requires Below(SpentAfter(c, l, payments, k - 1), |l.notes|)
    ensures
      var p, spent := payments[k - 1], SpentAfter(c, l, payments, k - 1);
      var i, after := Spends(c, l.notes, p), before + NewNotes(c, l.notes, p);
      Unspent(after, spent + {i}, |after|) + p.fee
        == Unspent(before, spent, |before|) + if i in spent then l.notes[i].value else 0
  {
    hide NewNotes, SpentAfter;
    var p, spent := payments[k - 1], SpentAfter(c, l, payments, k - 1);
    var i, more := Spends(c, l.notes, p), NewNotes(c, l.notes, p);
    assert before[i] == l.notes[i];
    UnspentAfterSpend(before, spent, i, |before|);
    UnspentAppend(before, more, spent + {i}, p.amts, |more|);
  }

  lemma WrappedFeesAre(c: Suite, l: Ledger, payments: seq<Payment>)
    requires PaymentsPass(c, l, payments)
    ensures WrappedFees(PaymentTxns(c, l, payments), |payments|) == FeeTotal(payments, |payments|) % UINT64
  {
    hide PaymentTxn, ValidPayment;
    forall j | 0 <= j < |payments| ensures PaymentTxns(c, l, payments)[j].body.fee == payments[j].fee {
      PaymentFee(c, l.notes, payments[j]);
    }
    WrappedFeesSum(PaymentTxns(c, l, payments), payments, |payments|);
  }

  lemma PaymentFee(c: Suite, notes: seq<Note>, p: Payment)
    requires ValidPayment(c, notes, p)
    ensures PaymentTxn(c, notes, p).body.fee == p.fee
  {
    hide SignedBody, SentOutputs;
  }

  lemma {:induction false} WrappedFeesSum(txns: seq<Txn>, payments: seq<Payment>, k: nat)
    requires k <= |txns| == |payments|
    requires forall j :: 0 <= j < |txns| ==> txns[j].body.fee == payments[j].fee
    ensures WrappedFees(txns, k) == FeeTotal(payments, k) % UINT64
  {
    if k > 0 {
      WrappedFeesSum(txns, payments, k - 1);
    }
  }

  /**
   The exact books of a block, whether or not it spends a note twice: the unspent
   value grows by the subsidy and by every repeated spend, once the fees fit a word.
   */
  lemma BlockAccounts(c: Suite, l: Ledger, plan: BlockPlan)
    requires PaymentsPass(c, l, plan.payments) && SpentInRange(l)
    requires CoinbaseValue(l.height) + FeeTotal(plan.payments, |plan.payments|) < UINT64
    ensures Total(Extend(c, l, plan))
         == Total(l) + CoinbaseValue(l.height) + Repeated(c, l, plan.payments, |plan.payments|)
  {
    hide PaymentsPass, PaymentTxns, CoinbaseValue, NotesAfter, SpentAfter, Repeated;
    WrappedFeesAre(c, l, plan.payments);
    PaymentsAccount(c, l, plan, |plan.payments|);
  }

  /** No two of the first k payments spend one note, unless it is worth nothing. */
  ghost predicate NothingTwice(c: Suite, l: Ledger, payments: seq<Payment>, k: nat)
    requires PaymentsPass(c, l, payments) && k <= |payments|
  {
    forall i, j :: 0 <= i < j < k ==> Spends(c, l.notes, payments[i]) == Spends(c, l.notes, payments[j]) ==>
      l.notes[Spends(c, l.notes, payments[j])].value == 0
  }

  /**
   A block of payments that each pass conserves value if and only if no two of them
   spend one note that is worth anything.
   */
  lemma ConservesIffNothingTwice(c: Suite, l: Ledger, plan: BlockPlan)
    requires PaymentsPass(c, l, plan.payments) && SpentInRange(l)
    requires CoinbaseValue(l.height) + FeeTotal(plan.payments, |plan.payments|) < UINT64
    ensures Total(Extend(c, l, plan)) == Total(l) + CoinbaseValue(l.height)
       <==> NothingTwice(c, l, plan.payments, |plan.payments|)
  {
    hide PaymentsPass, Total, Extend, CoinbaseValue, Repeated, NothingTwice;
    BlockAccounts(c, l, plan);
    RepeatedIffTwice(c, l, plan.payments, |plan.payments|);
  }

  lemma {:induction false} RepeatedIffTwice(c: Suite, l: Ledger, payments: seq<Payment>, k: nat)
    requires PaymentsPass(c, l, payments) && k <= |payments|
    ensures Repeated(c, l, payments, k) == 0 <==> NothingTwice(c, l, payments, k)
  {
    hide ValidPayment, SpentAfter;
    if k > 0 {
      RepeatedIffTwice(c, l, payments, k - 1);
      var i := Spends(c, l.notes, payments[k - 1]);
      FirstSpendIsFresh(c, l, payments, k - 1);
      SpentAfterAre(c, l, payments, k - 1, i);
    }
  }

  /** What is spent after k payments is what was spent before and what they spend. */
  lemma {:induction false} SpentAfterAre(c: Suite, l: Ledger, payments: seq<Payment>, k: nat, i: nat)
    requires PaymentsPass(c, l, payments) && k <= |payments|
    ensures i in SpentAfter(c, l, payments, k)
       <==> i in l.spent || exists j :: 0 <= j < k && Spends(c, l.notes, payments[j]) == i
  {
    hide ValidPayment;
    if k > 0 {
      SpentAfterAre(c, l, payments, k - 1, i);
    }
  }

  /** A block that spends one note in two payments passes payment by payment, and prints that note's value anew. */
  lemma DoubleSpendInflates(c: Suite, l: Ledger, plan: BlockPlan)
    requires |plan.payments| == 2 && PaymentsPass(c, l, plan.payments) && SpentInRange(l)
    requires Spends(c, l.notes, plan.payments[0]) == Spends(c, l.notes, plan.payments[1])
    requires CoinbaseValue(l.height) + FeeTotal(plan.payments, 2) < UINT64
    ensures Total(Extend(c, l, plan))
         == Total(l) + CoinbaseValue(l.height) + l.notes[Spends(c, l.notes, plan.payments[0])].value
    ensures !DistinctImages(c, l, plan.payments)
  {
    BlockAccounts(c, l, plan);
    hide Total, Extend, CoinbaseValue, ValidPayment, Spends;
    var i := Spends(c, l.notes, plan.payments[0]);
    FirstSpendIsFresh(c, l, plan.payments, 0);
    assert SpentAfter(c, l, plan.payments, 1) == SpentAfter(c, l, plan.payments, 0) + {i};
    assert Repeated(c, l, plan.payments, 2) == Repeated(c, l, plan.payments, 1) + l.notes[i].value;
    assert Repeated(c, l, plan.payments, 1) == Repeated(c, l, plan.payments, 0);
  }

  /** The payment of a first coinbase, as the only member of its ring, back to its owner. */
  function WholeCoinbase(c: Suite, key: PrivateKey, nonces: TxnNonces): Payment {
    Payment(seq(c.ring, _ => 0), 0, [INITIAL_SUBSIDY, 0], [key, key], 0, nonces)
  }

  /**
   A concrete input: the second block of a chain pays the first coinbase out twice.
   Both payments pass, and a subsidy's worth more than was issued is then unspent.
   */
  lemma CoinbaseSpentTwice(c: Suite, key: PrivateKey, r: nat, nonces: TxnNonces)
    requires Deployed(c) && GeneratedKey(c, key) && NoncesFor(c, nonces, 2)
    requires nonces.outputs[0].q % ORDER != 0 && nonces.outputs[1].q % ORDER != 0
    ensures
      var first, p := BlockPlan(key, r, []), WholeCoinbase(c, key, nonces);
      && GoodRun(c, [first])
      && var l, second := LedgerAfter(c, [first]), BlockPlan(key, r, [p, p]);
         && PaymentsPass(c, l, [p, p]) && Sound(c, l) && l.height == 1
         && Total(Extend(c, l, second)) == Supply(2) + INITIAL_SUBSIDY
  {
    hide GeneratedKey, NoncesFor, Owned, Total, NotesAfter, SpentAfter, Extend, Pow2, Sound;
    var first, p := BlockPlan(key, r, []), WholeCoinbase(c, key, nonces);
    var l := LedgerOfOne(c, first);
    RunConserves(c, [first]);
    AmountLimit();
    SumOfTwo(INITIAL_SUBSIDY, 0);
    assert ValidPayment(c, l.notes, p);
    assert PaymentsPass(c, l, [p, p]);
    var second := BlockPlan(key, r, [p, p]);
    assert FeeTotal([p, p], 2) == FeeTotal([p, p], 1) + 0 == FeeTotal([p, p], 0) + 0 + 0;
    FirstSubsidies();
    DoubleSpendInflates(c, l, second);
  }

  lemma FirstSubsidies()
    ensures CoinbaseValue(0) == CoinbaseValue(1) == INITIAL_SUBSIDY && Supply(1) == INITIAL_SUBSIDY
    ensures Supply(2) == Supply(1) + INITIAL_SUBSIDY
  {
    assert 0 / ERA == 0 && 1 / ERA == 0;
    assert Supply(1) == Supply(0) + CoinbaseValue(0);
  }

  /** The ledger after a first block without payments: its coinbase, unspent. */
  lemma LedgerOfOne(c: Suite, first: BlockPlan) returns (l: Ledger)
    requires first.payments == [] && GeneratedKey(c, first.miner)
    ensures GoodRun(c, [first]) && l == LedgerAfter(c, [first])
    ensures |l.notes| == 1 && l.notes[0].value == INITIAL_SUBSIDY && l.spent == {} && l.height == 1
  {
    hide GeneratedKey, Owned, CoinbaseOutput;
    assert [first][..0] == [];
    FirstSubsidies();
    l := Extend(c, EMPTY, first);
  }

  lemma FirstSpendIsFresh(c: Suite, l: Ledger, payments: seq<Payment>, j: nat)
    requires PaymentsPass(c, l, payments) && j < |payments|
    ensures Spends(c, l.notes, payments[j]) !in l.spent
  {
  }

  /** With distinct images nothing is spent twice, and the fees stay within what was unspent. */
  lemma {:induction false} NothingRepeated(c: Suite, l: Ledger, payments: seq<Payment>, k: nat)
    requires PaymentsPass(c, l, payments) && DistinctImages(c, l, payments) && k <= |payments|
    ensures Repeated(c, l, payments, k) == 0
    ensures forall s :: s in SpentAfter(c, l, payments, k) ==>
      s in l.spent || exists j :: 0 <= j < k && s == Spends(c, l.notes, payments[j])
    ensures Unspent(l.notes, SpentAfter(c, l, payments, k), |l.notes|) + FeeTotal(payments, k) <= Total(l)
  {
    hide ValidPayment;
    if k > 0 {
      NothingRepeated(c, l, payments, k - 1);
      var p := payments[k - 1];
      var i, spent := Spends(c, l.notes, p), SpentAfter(c, l, payments, k - 1);
      assert i !in spent;
      UnspentAfterSpend(l.notes, spent, i, |l.notes|);
      FeeWithinNote(c, l.notes, p);
    }
  }

  lemma FeeWithinNote(c: Suite, notes: seq<Note>, p: Payment)
    requires ValidPayment(c, notes, p)
    ensures p.fee <= notes[Spends(c, notes, p)].value
  {
    SumBound(p.amts, Pow2(c.bits), |p.amts|);
  }

  // --- Whole runs ---

  /** Every block of the plan is good in the ledger its predecessors leave. */
  ghost predicate GoodRun(c: Suite, plans: seq<BlockPlan>)
    decreases |plans|, 0
  {
    plans == [] ||
    var k := |plans| - 1;
    GoodRun(c, plans[..k]) && GoodBlock(c, LedgerAfter(c, plans[..k]), plans[k])
  }

  ghost function LedgerAfter(c: Suite, plans: seq<BlockPlan>): Ledger
    requires GoodRun(c, plans)
    decreases |plans|, 1
  {
    if plans == [] then EMPTY else Extend(c, LedgerAfter(c, plans[..|plans| - 1]), plans[|plans| - 1])
  }

  ghost predicate AllOwned(c: Suite, notes: seq<Note>) {
    forall i :: 0 <= i < |notes| ==> Owned(c, notes[i])
  }

  ghost predicate Sound(c: Suite, l: Ledger) {
    && SpentInRange(l)
    && AllOwned(c, l.notes)
    && Total(l) == Supply(l.height)
  }

  lemma {:induction false} NotesAfterOwned(c: Suite, l: Ledger, plan: BlockPlan, k: nat)
    requires GeneratedKey(c, plan.miner) && PaymentsPass(c, l, plan.payments) && k <= |plan.payments|
    requires AllOwned(c, l.notes)
    ensures AllOwned(c, NotesAfter(c, l, plan, k))
  {
    hide Owned, ValidPayment, CoinbaseAmount, NewNotes, GeneratedKey, DistinctImages, CoinbaseOutput;
    if k == 0 {
      CoinbaseOwned(c, plan.miner, CoinbaseAmount(c, l, plan.payments), plan.r);
    } else {
      NotesAfterOwned(c, l, plan, k - 1);
      CreatedOwned(c, l.notes, plan.payments[k - 1]);
    }
  }

  /** The subsidy and the fees of a good block on a sound ledger fit a 64-bit word. */
  lemma FeesFit(c: Suite, l: Ledger, plan: BlockPlan)
    requires Sound(c, l) && GoodBlock(c, l, plan)
    ensures CoinbaseValue(l.height) + FeeTotal(plan.payments, |plan.payments|) <= Supply(l.height + 1) < UINT64
    ensures CoinbaseAmount(c, l, plan.payments) == CoinbaseValue(l.height) + FeeTotal(plan.payments, |plan.payments|)
  {
    hide PaymentsPass, DistinctImages, Unspent, CoinbaseValue, PaymentTxns, WrappedFees;
    NothingRepeated(c, l, plan.payments, |plan.payments|);
    WrappedFeesAre(c, l, plan.payments);
    SupplyCap(l.height + 1);
  }

  lemma ExtendKeepsBooks(c: Suite, l: Ledger, plan: BlockPlan)
    requires Sound(c, l) && GoodBlock(c, l, plan)
    ensures Total(Extend(c, l, plan)) == Supply(l.height + 1)
  {
    hide AllOwned, PaymentsPass, DistinctImages, Total, CoinbaseValue, FeeTotal, Extend;
    FeesFit(c, l, plan);
    NothingRepeated(c, l, plan.payments, |plan.payments|);
    BlockAccounts(c, l, plan);
  }

  lemma ExtendKeepsSound(c: Suite, l: Ledger, plan: BlockPlan)
    requires Sound(c, l) && GoodBlock(c, l, plan)
    ensures Sound(c, Extend(c, l, plan))
  {
    hide AllOwned, PaymentsPass, DistinctImages, Total, NotesAfter, SpentAfter;
    ExtendKeepsBooks(c, l, plan);
    SpentAfterInRange(c, l, plan.payments, |plan.payments|);
    NotesAfterOwned(c, l, plan, |plan.payments|);
  }

  /** Conservation: after every good run the unspent value is exactly what the subsidies issued. */
  lemma {:induction false} RunConserves(c: Suite, plans: seq<BlockPlan>)
    requires GoodRun(c, plans)
    ensures Sound(c, LedgerAfter(c, plans))
    ensures LedgerAfter(c, plans).height == |plans|
    ensures Total(LedgerAfter(c, plans)) == Supply(|plans|)
  {
    hide GoodBlock, Owned, Unspent;
    if plans == [] {
      EmptySound(c);
    } else {
      var k := |plans| - 1;
      RunConserves(c, plans[..k]);
      ExtendKeepsSound(c, LedgerAfter(c, plans[..k]), plans[k]);
    }
  }

  lemma EmptySound(c: Suite)
    ensures Sound(c, EMPTY)
  {
  }

  /**
   In the next block of any good run every payment verifies together with its
   range proofs, and the coinbase holds exactly the subsidy and the fees.
   */
  lemma RunVerifies(c: Suite, plans: seq<BlockPlan>, plan: BlockPlan)
    requires GoodRun(c, plans) && GoodBlock(c, LedgerAfter(c, plans), plan)
    ensures
      var l := LedgerAfter(c, plans);
      var fees := WrappedFees(PaymentTxns(c, l, plan.payments), |plan.payments|);
      && (forall j :: 0 <= j < |plan.payments| ==> PaymentAccepted(c, l.notes, plan.payments[j]))
      && VerifyCoinbaseTxn(NewCoinbaseTxn(c, plan.miner.pub, |plans|, fees, plan.r),
                           CoinbaseValue(|plans|) + FeeTotal(plan.payments, |plan.payments|))
  {
    hide PaymentAccepted, Owned, GoodRun, LedgerAfter, VerifyCoinbaseTxn, NewCoinbaseTxn, CoinbaseValue, WrappedFees,
         DistinctImages, Total, PaymentTxns, ValidPayment;
    RunConserves(c, plans);
    var l := LedgerAfter(c, plans);
    forall j | 0 <= j < |plan.payments| ensures PaymentAccepted(c, l.notes, plan.payments[j]) {
      PaymentVerifies(c, l.notes, plan.payments[j]);
    }
    FeesFit(c, l, plan);
    CoinbaseVerifies(c, plan.miner.pub, |plans|, WrappedFees(PaymentTxns(c, l, plan.payments), |plan.payments|), plan.r,
                     CoinbaseValue(|plans|) + FeeTotal(plan.payments, |plan.payments|));
  }
}
