/**
 Where the two halves meet: a block of honest payments passes the validation of any
 client whose main chain holds the outputs they draw on.
 */
module Acceptance {
  import opened Bytes
  import opened Curve
  import opened Primitives
  import opened RangeProofs
  import opened Outputs
  import opened RingSignature
  import opened Transactions
  import opened HonestChain
  import opened Balance
  import opened RangeBinding
  import opened Tables
  import opened BlockTree
  import opened Forks
  import opened Validation
  import Difficulty
  import Client

  /** Outputs of the chain are known by their hashes. */
  ghost predicate HashesTell(c: Suite, path: seq<Block>) {
    forall o, p :: OnChain(path, o) && OnChain(path, p) && c.OutputHash(o) == c.OutputHash(p) ==> o == p
  }

  ghost predicate HoldsNotes(c: Suite, path: seq<Block>, notes: seq<Note>) {
    forall i :: 0 <= i < |notes| ==> OnChain(path, notes[i].output)
  }

  ghost predicate SpentOnLedger(c: Suite, l: Ledger, k: Digest) {
    exists s :: s in l.spent && s < |l.notes| && SpentImage(c, l.notes[s]) == k
  }

  /** The chain holds every note of the ledger and has spent images only of its spent ones. */
  ghost predicate Mirrors(c: Suite, path: seq<Block>, l: Ledger) {
    && HashesTell(c, path) && Separate(c, path) && HoldsNotes(c, path, l.notes)
    && forall k :: Contributes(ImageEntries(c), path, k) ==> SpentOnLedger(c, l, k)
  }

  /** The tables are those of a client whose main chain is the view's. */
  ghost predicate RecordsOf(v: View, t: Records) {
    v.tip in v.tree && Partitioned(v) && TablesOf(v, t) && t.images == Rebuilt(ImageEntries(v.c), v.tree[v.tip])
  }

  /** A note's output is found by its hash. */
  lemma NoteFound(v: View, t: Records, env: Env, notes: seq<Note>, i: nat)
    requires RecordsOf(v, t) && HashesTell(v.c, v.tree[v.tip]) && Separate(v.c, v.tree[v.tip])
    requires HoldsNotes(v.c, v.tree[v.tip], notes) && i < |notes|
    ensures FoundOutput(v.c, t, env, v.c.OutputHash(notes[i].output)) == Ok(notes[i].output)
    ensures Usable(v.c, t, env, v.c.OutputHash(notes[i].output), {})
  {
    hide Partitioned, Rebuilt, OnChain, Contributes, Separate, Suite.OutputHash;
    LoadOutputExact(v, t, v.c.OutputHash(notes[i].output));
  }

  /** The image in a payment is the one its owner's note is spent under, and its form is that of a transaction. */
  lemma PaymentForm(c: Suite, notes: seq<Note>, p: Payment)
    requires ValidPayment(c, notes, p)
    ensures c.ImageHash(PaymentTxn(c, notes, p)) == SpentImage(c, notes[Spends(c, notes, p)])
    ensures PaymentTxn(c, notes, p).body.inputs == InputHashes(c, Inputs(notes, p))
    ensures |p.amts| == 2 ==> ValidTxn(c, PaymentTxn(c, notes, p))
  {
    hide ComputeTxnPrivateKey, ComputeBlindingFactor, SignerChallenge, ZeroSumKey, TimeTravel, GeneratedKey, ScalarMult;
    var txn := PaymentTxn(c, notes, p);
    assert Inputs(notes, p)[p.idx] == notes[Spends(c, notes, p)].output;
    assert DestKeys(Inputs(notes, p))[p.idx] == notes[Spends(c, notes, p)].output.destKey;
  }

  /** A payment from an owned, unspent note is accepted by the client. */
  lemma PaymentAcceptable(v: View, t: Records, env: Env, l: Ledger, p: Payment)
    requires RecordsOf(v, t) && Mirrors(v.c, v.tree[v.tip], l)
    requires ValidPayment(v.c, l.notes, p) && |p.amts| == 2 && Owned(v.c, l.notes[Spends(v.c, l.notes, p)])
    requires !SpentOnLedger(v.c, l, SpentImage(v.c, l.notes[Spends(v.c, l.notes, p)]))
    ensures ValidTxn(v.c, PaymentTxn(v.c, l.notes, p))
    ensures AcceptableTxn(v.c, t, env, PaymentTxn(v.c, l.notes, p), {}, {})
  {
    hide Partitioned, Rebuilt, OnChain, Contributes, Suite.OutputHash, Suite.ImageHash, SpentImage, SpentOnLedger,
         Spent, Owned, Accepts, Verifies, PaymentTxn, HashesTell, Separate, HoldsNotes, Usable, FoundOutput,
         GeneratedKey, TablesOf;
    var c, txn, inputs := v.c, PaymentTxn(v.c, l.notes, p), Inputs(l.notes, p);
    PaymentForm(c, l.notes, p);
    PaymentVerifies(c, l.notes, p);
    SpentOnChain(c, t, v.tree[v.tip], c.ImageHash(txn));
    forall i | 0 <= i < |inputs|
      ensures Usable(c, t, env, txn.body.inputs[i], {}) && FoundOutput(c, t, env, txn.body.inputs[i]) == Ok(inputs[i])
    {
      NoteFound(v, t, env, l.notes, p.ring[i]);
    }
    assert RingOutputs(c, t, env, txn.body.inputs) == inputs;
  }

  ghost predicate IsHonestBlock(c: Suite, l: Ledger, plan: BlockPlan, b: Block)
    requires PaymentsPass(c, l, plan.payments)
  {
    var txns := PaymentTxns(c, l, plan.payments);
    b.txns == [NewCoinbaseTxn(c, plan.miner.pub, b.header.seqNum, WrappedFees(txns, |txns|), plan.r)] + txns
  }

  /**
   Every block a miner builds from payments that each pass against a ledger of owned notes
   passes the transaction checks of a client that holds the notes, whether or not two of
   the payments spend one note.
   */
  lemma HonestBlockAccepted(v: View, t: Records, env: Env, l: Ledger, plan: BlockPlan, b: Block)
    requires RecordsOf(v, t) && Mirrors(v.c, v.tree[v.tip], l)
    requires AllOwned(v.c, l.notes) && PaymentsPass(v.c, l, plan.payments) && IsHonestBlock(v.c, l, plan, b)
    requires b.header.merkleRoot == v.c.merkle(b.txns) && env.admissible(b)
    requires forall j :: 0 <= j < |plan.payments| ==> |plan.payments[j].amts| == 2
    ensures Prevalid(v.c, env, b) && AcceptableTxns(v.c, t, env, b, {}, {})
  {
    hide RecordsOf, Mirrors, SpentImage, Owned, ValidTxn, AcceptableTxn, PaymentTxn, ValidPayment, VerifyCoinbaseTxn,
         CoinbaseDue, WrappedFees, GeneratedKey;
    var c, txns := v.c, PaymentTxns(v.c, l, plan.payments);
    forall j | 0 <= j < |txns| ensures ValidTxn(c, txns[j]) && AcceptableTxn(c, t, env, txns[j], {}, {}) {
      PaymentAcceptable(v, t, env, l, plan.payments[j]);
    }
    forall i | 1 <= i < |b.txns| ensures b.txns[i] == txns[i - 1] {
    }
    CoinbaseForm(c, plan.miner.pub, b.header.seqNum, WrappedFees(txns, |txns|), plan.r);
    assert b.txns[1..] == txns;
    NewBlockCoinbase(c, b, txns, plan.miner.pub, plan.r, |b.txns|);
  }

  lemma CoinbaseForm(c: Suite, to: PublicKey, seqNum: nat, fee: nat, r: nat)
    ensures ValidCoinbaseTxn(NewCoinbaseTxn(c, to, seqNum, fee, r))
  {
  }

  /** So the transaction checks of a client whose tables are exact pass it. */
  lemma ClientAccepts(client: Client.Client, env: Env, l: Ledger, plan: BlockPlan, b: Block)
    requires client.Valid() && (client.reorganised ==> NoRepeats(client.c, client.tree))
    requires Mirrors(client.c, client.Main(), l) && AllOwned(client.c, l.notes)
    requires PaymentsPass(client.c, l, plan.payments) && IsHonestBlock(client.c, l, plan, b)
    requires b.header.merkleRoot == client.c.merkle(b.txns) && env.admissible(b)
    requires forall j :: 0 <= j < |plan.payments| ==> |plan.payments[j].amts| == 2
    ensures Prevalid(client.c, env, b) && client.BlockAcceptable(b, [], [], env)
  {
    hide Partitioned, Mirrors, AllOwned, PaymentsPass, IsHonestBlock, AcceptableTxns, Prevalid, Rebuilt, NoRepeats,
         NoImageTwice;
    if client.reorganised {
      NoRepeatsMeansNoImageTwice(client.c, client.tree);
    }
    HonestBlockAccepted(client.Now(), client.Kept(), env, l, plan, b);
    client.ForkNone();
  }

  // --- Whole runs ---

  lemma OnLonger(path: seq<Block>, b: Block, o: Output)
    ensures OnChain(path + [b], o) <==> OnChain(path, o) || OutputOf(b, o)
  {
    hide OutputOf;
    assert (path + [b])[|path|] == b;
    if i :| 0 <= i < |path| && OutputOf(path[i], o) {
      assert (path + [b])[i] == path[i];
    }
  }

  lemma ContributesLonger<V>(entries: Block -> map<Digest, V>, path: seq<Block>, b: Block, k: Digest)
    ensures Contributes(entries, path + [b], k) <==> Contributes(entries, path, k) || k in entries(b)
  {
    assert (path + [b])[..|path|] == path;
    ContributesLast(entries, path + [b], k);
  }

  lemma ShorterHonest(c: Suite, path: seq<Block>, b: Block)
    requires HashesTell(c, path + [b]) && Separate(c, path + [b])
    ensures HashesTell(c, path) && Separate(c, path)
  {
    hide OnChain, Contributes, Suite.OutputHash, ImageEntries;
    forall o ensures OnChain(path, o) ==> OnChain(path + [b], o) {
      OnLonger(path, b, o);
    }
    forall k ensures Contributes(ImageEntries(c), path, k) ==> Contributes(ImageEntries(c), path + [b], k) {
      ContributesLonger(ImageEntries(c), path, b, k);
    }
  }

  /** Every note after the first k payments is an output of the chain once the block is on it. */
  lemma {:induction false} NotesOnChain(c: Suite, path: seq<Block>, l: Ledger, plan: BlockPlan, b: Block, k: nat,
                                        i: nat)
    requires PaymentsPass(c, l, plan.payments) && IsHonestBlock(c, l, plan, b) && b.header.seqNum == l.height
    requires k <= |plan.payments| && i < |NotesAfter(c, l, plan, k)|
    requires forall j :: 0 <= j < |l.notes| ==> OnChain(path, l.notes[j].output)
    ensures OnChain(path + [b], NotesAfter(c, l, plan, k)[i].output)
  {
    hide ValidPayment, GeneratedKey, DistinctImages, PaymentTxn, SpentImage, OnChain, CoinbaseAmount, NewNotes,
         WrappedFees, NewCoinbaseTxn;
    var o := NotesAfter(c, l, plan, k)[i].output;
    OnLonger(path, b, o);
    if k == 0 {
      if i == |l.notes| {
        CoinbaseIsOutput(c, l, plan, b);
      }
    } else {
      var before := NotesAfter(c, l, plan, k - 1);
      if i < |before| {
        NotesOnChain(c, path, l, plan, b, k - 1, i);
      } else {
        NewNoteIsOutput(c, l.notes, plan.payments[k - 1], i - |before|);
        assert b.txns[k] == PaymentTxn(c, l.notes, plan.payments[k - 1]);
      }
    }
  }

  lemma CoinbaseIsOutput(c: Suite, l: Ledger, plan: BlockPlan, b: Block)
    requires PaymentsPass(c, l, plan.payments) && IsHonestBlock(c, l, plan, b) && b.header.seqNum == l.height
    ensures OutputOf(b, CoinbaseNote(c, l, plan).output)
  {
    hide PaymentsPass, PaymentTxns, WrappedFees, CoinbaseOutput, Subsidy.CoinbaseValue;
    assert b.txns[0].body.outputs[0] == CoinbaseNote(c, l, plan).output;
  }

  lemma NewNoteIsOutput(c: Suite, notes: seq<Note>, p: Payment, i: nat)
    requires ValidPayment(c, notes, p) && i < |p.amts|
    ensures
      var outputs := PaymentTxn(c, notes, p).body.outputs;
      i < |outputs| && outputs[i] == NewNotes(c, notes, p)[i].output
  {
    hide SignedBody, SentOutput, ComputeTxnPrivateKey, ComputeBlindingFactor;
  }

  /** An image of the block is that of a note the ledger spends in it. */
  lemma ImagesOnLedger(c: Suite, l: Ledger, plan: BlockPlan, b: Block, k: Digest)
    requires PaymentsPass(c, l, plan.payments) && IsHonestBlock(c, l, plan, b) && k in ImageEntries(c)(b)
    ensures SpentOnLedger(c, Extend(c, l, plan), k)
  {
    hide ValidPayment, GeneratedKey, DistinctImages, PaymentTxn, SpentImage, WrappedFees, NewCoinbaseTxn, ImageKeys,
         NotesAfter, SpentAfter, Suite.ImageHash;
    EntryKeys(c, b);
    ImageOfTxn(c, b, |b.txns|, k);
    var i :| 1 <= i < |b.txns| && c.ImageHash(b.txns[i]) == k;
    var p := plan.payments[i - 1];
    assert b.txns[i] == PaymentTxn(c, l.notes, p);
    PaymentForm(c, l.notes, p);
    var s := Spends(c, l.notes, p);
    SpentAfterAre(c, l, plan.payments, |plan.payments|, s);
    assert Extend(c, l, plan).notes[s] == l.notes[s];
  }

  /** A chain that mirrors a ledger still does once both are extended by the same honest block. */
  lemma MirrorsExtends(c: Suite, path: seq<Block>, l: Ledger, plan: BlockPlan, b: Block)
    requires Mirrors(c, path, l) && PaymentsPass(c, l, plan.payments) && IsHonestBlock(c, l, plan, b)
    requires b.header.seqNum == l.height && HashesTell(c, path + [b]) && Separate(c, path + [b])
    ensures Mirrors(c, path + [b], Extend(c, l, plan))
  {
    hide PaymentsPass, IsHonestBlock, OnChain, Contributes, ImageEntries, SpentImage, NotesAfter, SpentAfter,
         Suite.OutputHash, HashesTell, Separate;
    var after := Extend(c, l, plan);
    forall i | 0 <= i < |after.notes| ensures OnChain(path + [b], after.notes[i].output) {
      NotesOnChain(c, path, l, plan, b, |plan.payments|, i);
    }
    forall k | Contributes(ImageEntries(c), path + [b], k) ensures SpentOnLedger(c, after, k) {
      ContributesLonger(ImageEntries(c), path, b, k);
      if k in ImageEntries(c)(b) {
        ImagesOnLedger(c, l, plan, b, k);
      } else {
        var s :| s in l.spent && s < |l.notes| && SpentImage(c, l.notes[s]) == k;
        SpentAfterAre(c, l, plan.payments, |plan.payments|, s);
        assert after.notes[s] == l.notes[s];
      }
    }
  }

  /** The blocks of a chain are the honest ones of a run of plans, numbered by height. */
  ghost predicate Realises(c: Suite, path: seq<Block>, plans: seq<BlockPlan>)
    requires GoodRun(c, plans)
    decreases |plans|
  {
    |path| == |plans| &&
    (plans == [] || (
      var n := |plans| - 1;
      && Realises(c, path[..n], plans[..n])
      && IsHonestBlock(c, LedgerAfter(c, plans[..n]), plans[n], path[n]) && path[n].header.seqNum == n))
  }

  /** Whole runs: a chain of honest blocks mirrors the ledger of the same payments. */
  lemma {:induction false} RunMirrors(c: Suite, path: seq<Block>, plans: seq<BlockPlan>)
    requires GoodRun(c, plans) && Realises(c, path, plans) && HashesTell(c, path) && Separate(c, path)
    ensures Mirrors(c, path, LedgerAfter(c, plans))
    decreases |plans|
  {
    hide IsHonestBlock, HashesTell, Separate, PaymentsPass, DistinctImages, Extend, Mirrors;
    if plans == [] {
      NothingMirrors(c);
    } else {
      var n := |plans| - 1;
      assert path == path[..n] + [path[n]];
      ShorterHonest(c, path[..n], path[n]);
      RunMirrors(c, path[..n], plans[..n]);
      RunConserves(c, plans[..n]);
      MirrorsExtends(c, path[..n], LedgerAfter(c, plans[..n]), plans[n], path[n]);
    }
  }

  lemma NothingMirrors(c: Suite)
    ensures Mirrors(c, [], EMPTY)
  {
  }

  /** The block a miner drafts on the tip, with the difficulty that is due. */
  ghost function Candidate(client: Client.Client, env: Env, miner: PrivateKey, r: nat, pool: seq<Txn>, time: int,
                           nonce: nat): Block
    reads client
  {
    var draft := Client.Drafted(client.c, client.lastHeader, miner.pub, pool, r, time, 0, nonce);
    draft.(header := draft.header.(difficulty := client.Due(draft, env)))
  }

  /** A client in a reachable state, with the given main chain and tables that are exact for it. */
  ghost predicate Serves(client: Client.Client, main: seq<Block>)
    reads client
  {
    && client.Valid() && client.Tip() in client.tree && client.Main() == main
    && (client.reorganised ==> NoRepeats(client.c, client.tree))
  }

  /**
   End to end: a client whose main chain is any run of honest blocks holds exactly the
   issued value unspent. A block it builds from payments that each pass, with whatever
   nonce and the present time, becomes its tip if and only if the nonce gives the proof
   of work; and if no two payments spend one note, the chain is such a run again.
   */
  method MineNext(client: Client.Client, env: Env, ghost main: seq<Block>, ghost plans: seq<BlockPlan>,
                  ghost payments: seq<Payment>, miner: PrivateKey, r: nat, pool: seq<Txn>, time: int, nonce: nat)
    returns (b: Block, success: bool)
    requires Serves(client, main) && HashesTell(client.c, main) && Separate(client.c, main)
    requires GoodRun(client.c, plans) && Realises(client.c, main, plans) && |plans| < UINT64
    requires GeneratedKey(client.c, miner) && PaymentsPass(client.c, LedgerAfter(client.c, plans), payments)
    requires pool == PaymentTxns(client.c, LedgerAfter(client.c, plans), payments)
    requires forall j :: 0 <= j < |payments| ==> |payments[j].amts| == 2
    requires
      var next := Candidate(client, env, miner, r, pool, time, nonce);
      env.admissible(next) && client.Genuine(next, client.c.BlockHash(next)) && time + Client.TWO_HOURS >= env.now
    modifies client
    ensures client.Valid() && b == old(Candidate(client, env, miner, r, pool, time, nonce))
    ensures Total(LedgerAfter(client.c, plans)) == Subsidy.Supply(|main|)
    ensures success <==> Worked(client.c, b.header)
    ensures success ==> client.Tip() in client.tree && client.Main() == main + [b] && client.lastHeader == b.header
    ensures success && DistinctImages(client.c, LedgerAfter(client.c, plans), payments) ==>
      var more := plans + [BlockPlan(miner, r, payments)];
      GoodRun(client.c, more) && Realises(client.c, main + [b], more)
  {
    hide Mirrors, AllOwned, PaymentsPass, NoRepeats, HashesTell, Separate, LedgerAfter, GoodRun, GeneratedKey, Realises,
         DistinctImages, PaymentTxns, IsHonestBlock, Total, Candidate, Prevalid, Worked, Suite.HeaderHash,
         Client.Client.Valid;
    ghost var c, plan := client.c, BlockPlan(miner, r, payments);
    TipIsLast(client, main);
    RunReady(c, main, plans);
    NextAccepted(client, env, main, LedgerAfter(c, plans), plan, pool, time, nonce);
    b := BuildCandidate(client, env, miner, r, pool, time, nonce);
    success := client.AdoptMinedBlock(b, env);
    RunExtends(c, main, plans, plan, b);
  }

  lemma TipIsLast(client: Client.Client, main: seq<Block>)
    requires Serves(client, main)
    ensures main != [] && Last(main).header == client.lastHeader && client.Tip() != ZERO_DIGEST
  {
    hide NoRepeats;
    PathEnds(client.Now(), client.Tip());
  }

  /** What the client's own block building gives once a nonce is put in. */
  method BuildCandidate(client: Client.Client, env: Env, miner: PrivateKey, r: nat, pool: seq<Txn>, time: int,
                        nonce: nat)
    returns (b: Block)
    requires client.Valid()
    ensures b == Candidate(client, env, miner, r, pool, time, nonce)
  {
    b := client.NewBlock(client.lastHeader, miner.pub, pool, r, time, env);
    client.DueStays(b, Client.Drafted(client.c, client.lastHeader, miner.pub, pool, r, time, 0, nonce), env);
    b := b.(header := b.header.(nonce := nonce));
  }

  /** Whatever its nonce, the block drafted on a chain that mirrors a ledger passes every check but that of its work. */
  lemma NextAccepted(client: Client.Client, env: Env, main: seq<Block>, l: Ledger, plan: BlockPlan, pool: seq<Txn>,
                     time: int, nonce: nat)
    requires Serves(client, main) && Mirrors(client.c, main, l) && AllOwned(client.c, l.notes)
    requires client.lastHeader.seqNum + 1 == l.height < UINT64
    requires PaymentsPass(client.c, l, plan.payments) && pool == PaymentTxns(client.c, l, plan.payments)
    requires forall j :: 0 <= j < |plan.payments| ==> |plan.payments[j].amts| == 2
    requires env.admissible(Candidate(client, env, plan.miner, plan.r, pool, time, nonce))
    ensures
      var b := Candidate(client, env, plan.miner, plan.r, pool, time, nonce);
      && IsHonestBlock(client.c, l, plan, b)
      && b.header.seqNum == l.height && b.header.prevHash == client.Tip() && b.header.time == time
      && Prevalid(client.c, env, b) && client.BlockAcceptable(b, [], [], env) && client.DifficultyFits(b, env)
  {
    hide Partitioned, Mirrors, AllOwned, PaymentsPass, Prevalid, NoRepeats, PaymentTxns, IsHonestBlock,
         Suite.HeaderHash;
    var b := Candidate(client, env, plan.miner, plan.r, pool, time, nonce);
    DraftIsHonest(client.c, client.lastHeader, plan, pool, l, time, b.header.difficulty, nonce);
    client.DueStays(Client.Drafted(client.c, client.lastHeader, plan.miner.pub, pool, plan.r, time, 0, nonce), b, env);
    ClientAccepts(client, env, l, plan, b);
  }

  /** What a chain that is an honest run offers the next block. */
  lemma RunReady(c: Suite, path: seq<Block>, plans: seq<BlockPlan>)
    requires GoodRun(c, plans) && Realises(c, path, plans) && HashesTell(c, path) && Separate(c, path)
    ensures Mirrors(c, path, LedgerAfter(c, plans)) && AllOwned(c, LedgerAfter(c, plans).notes)
    ensures Total(LedgerAfter(c, plans)) == Subsidy.Supply(|path|)
    ensures |path| == |plans| == LedgerAfter(c, plans).height
    ensures path != [] ==> Last(path).header.seqNum == |plans| - 1
  {
    hide Mirrors, HashesTell, Separate, GoodRun, Realises, Total;
    RunMirrors(c, path, plans);
    RunConserves(c, plans);
    LastNumber(c, path, plans);
  }

  lemma DraftIsHonest(c: Suite, prev: Header, plan: BlockPlan, pool: seq<Txn>, l: Ledger, time: int, difficulty: nat,
                      nonce: nat)
    requires PaymentsPass(c, l, plan.payments) && pool == PaymentTxns(c, l, plan.payments)
    requires prev.seqNum + 1 < UINT64
    ensures
      var b := Client.Drafted(c, prev, plan.miner.pub, pool, plan.r, time, difficulty, nonce);
      IsHonestBlock(c, l, plan, b) && b.header.seqNum == prev.seqNum + 1 && b.header.merkleRoot == c.merkle(b.txns)
  {
    hide PaymentsPass, PaymentTxns, NewCoinbaseTxn, WrappedFees, Suite.HeaderHash;
  }

  lemma LastNumber(c: Suite, path: seq<Block>, plans: seq<BlockPlan>)
    requires GoodRun(c, plans) && Realises(c, path, plans)
    ensures |path| == |plans| && (path != [] ==> Last(path).header.seqNum == |plans| - 1)
  {
    hide IsHonestBlock;
  }

  lemma RunExtends(c: Suite, path: seq<Block>, plans: seq<BlockPlan>, plan: BlockPlan, b: Block)
    requires GoodRun(c, plans) && Realises(c, path, plans) && PaymentsPass(c, LedgerAfter(c, plans), plan.payments)
    requires GeneratedKey(c, plan.miner) && IsHonestBlock(c, LedgerAfter(c, plans), plan, b)
    requires b.header.seqNum == |plans|
    ensures DistinctImages(c, LedgerAfter(c, plans), plan.payments) ==>
      GoodRun(c, plans + [plan]) && Realises(c, path + [b], plans + [plan])
  {
    hide IsHonestBlock, DistinctImages, PaymentsPass, GeneratedKey, LedgerAfter;
    assert (plans + [plan])[..|plans|] == plans && (path + [b])[..|path|] == path;
  }

  // --- A block numbered 1 anywhere ---

  /**
   An input: at any height a client accepts an honest-shaped block numbered 1 with the
   difficulty a chain starts with, although its coinbase claims the full first subsidy.
   */
  lemma MisnumberedAccepted(client: Client.Client, env: Env, main: seq<Block>, l: Ledger, plan: BlockPlan, b: Block)
    requires Serves(client, main) && Mirrors(client.c, main, l) && AllOwned(client.c, l.notes)
    requires PaymentsPass(client.c, l, plan.payments) && IsHonestBlock(client.c, l, plan, b)
    requires b.header.merkleRoot == client.c.merkle(b.txns) && env.admissible(b)
    requires forall j :: 0 <= j < |plan.payments| ==> |plan.payments[j].amts| == 2
    requires b.header.seqNum == 1 && b.header.difficulty == Difficulty.INITIAL_DIFFICULTY
    ensures client.DifficultyFits(b, env) && Prevalid(client.c, env, b) && client.BlockAcceptable(b, [], [], env)
    ensures VerifyCoinbaseTxn(b.txns[0], CoinbaseDue(b, |b.txns|))
    ensures |b.txns| == 1 ==> CoinbaseDue(b, |b.txns|) == Subsidy.INITIAL_SUBSIDY
  {
    hide Partitioned, Mirrors, AllOwned, PaymentsPass, IsHonestBlock, AcceptableTxn, Prevalid, Rebuilt, NoRepeats,
         VerifyCoinbaseTxn;
    ClientAccepts(client, env, l, plan, b);
    Subsidy.FirstClaim();
  }

  // --- A note spent twice ---

  lemma FirstBlockTells(c: Suite, first: BlockPlan, b: Block)
    requires first.payments == [] && IsHonestBlock(c, EMPTY, first, b)
    ensures HashesTell(c, [b]) && Separate(c, [b])
  {
    hide NewCoinbaseTxn;
    var to, fees := first.miner.pub, WrappedFees([], 0);
    OneOutput(c, to, b.header.seqNum, fees, first.r);
    assert |b.txns| == 1 && b.txns[0] == NewCoinbaseTxn(c, to, b.header.seqNum, fees, first.r);
    assert ImageKeys(c, b, 1) == {};
    forall o | OnChain([b], o) ensures o == b.txns[0].body.outputs[0] {
    }
    forall k ensures !Contributes(ImageEntries(c), [b], k) {
      EntryKeys(c, b);
    }
  }

  lemma OneOutput(c: Suite, to: PublicKey, seqNum: nat, fee: nat, r: nat)
    ensures |NewCoinbaseTxn(c, to, seqNum, fee, r).body.outputs| == 1
  {
  }

  /**
   A concrete input on which conservation fails: a client that holds one honest first
   block accepts a second that pays its coinbase out twice, and then a whole subsidy
   more than was ever issued is unspent.
   */
  lemma DoubleSpendAccepted(v: View, t: Records, env: Env, key: PrivateKey, r: nat, nonces: TxnNonces, b: Block)
    returns (l: Ledger, second: BlockPlan)
    requires RecordsOf(v, t) && v.tip in v.tree && Deployed(v.c) && GeneratedKey(v.c, key) && NoncesFor(v.c, nonces, 2)
    requires nonces.outputs[0].q % ORDER != 0 && nonces.outputs[1].q % ORDER != 0
    requires |v.tree[v.tip]| == 1 && v.tree[v.tip][0].header.seqNum == 0
    requires IsHonestBlock(v.c, EMPTY, BlockPlan(key, r, []), v.tree[v.tip][0])
    ensures second == BlockPlan(key, r, [WholeCoinbase(v.c, key, nonces), WholeCoinbase(v.c, key, nonces)])
    ensures Mirrors(v.c, v.tree[v.tip], l) && Sound(v.c, l) && PaymentsPass(v.c, l, second.payments)
    ensures
      IsHonestBlock(v.c, l, second, b) && b.header.merkleRoot == v.c.merkle(b.txns) && env.admissible(b) ==>
        Prevalid(v.c, env, b) && AcceptableTxns(v.c, t, env, b, {}, {})
    ensures Total(Extend(v.c, l, second)) == Subsidy.Supply(2) + Subsidy.INITIAL_SUBSIDY
  {
    hide RecordsOf, Mirrors, Prevalid, AcceptableTxns, HashesTell, Separate, Total, Extend, NoncesFor, GeneratedKey,
         AllOwned, IsHonestBlock;
    var c, main := v.c, v.tree[v.tip];
    var first, p := BlockPlan(key, r, []), WholeCoinbase(c, key, nonces);
    CoinbaseSpentTwice(c, key, r, nonces);
    l, second := LedgerAfter(c, [first]), BlockPlan(key, r, [p, p]);
    assert main == [main[0]];
    FirstBlockTells(c, first, main[0]);
    FirstRealises(c, main[0], first);
    RunMirrors(c, main, [first]);
    if IsHonestBlock(c, l, second, b) && b.header.merkleRoot == c.merkle(b.txns) && env.admissible(b) {
      HonestBlockAccepted(v, t, env, l, second, b);
    }
  }

  lemma NoPaymentsPass(c: Suite)
    ensures PaymentsPass(c, EMPTY, [])
  {
  }

  /** The one note there is after a first block without payments. */
  ghost function FirstNotes(c: Suite, key: PrivateKey, r: nat): seq<Note> {
    [CoinbaseNote(c, EMPTY, BlockPlan(key, r, []))]
  }

  lemma FirstLedgerHolds(c: Suite, key: PrivateKey, r: nat)
    requires GoodRun(c, [BlockPlan(key, r, [])])
    ensures LedgerAfter(c, [BlockPlan(key, r, [])]).notes == FirstNotes(c, key, r)
  {
    hide CoinbaseOutput, GeneratedKey;
    assert [BlockPlan(key, r, [])][..0] == [];
    assert LedgerAfter(c, [BlockPlan(key, r, [])]) == Extend(c, EMPTY, BlockPlan(key, r, []));
  }

  /**
   The same end to end: the client itself builds such a second block from a pool that holds
   the payment twice, and makes it its tip if and only if the nonce gives the proof of work.
   */
  method MineDoubleSpend(client: Client.Client, env: Env, ghost main: seq<Block>, key: PrivateKey, r: nat,
                         ghost nonces: TxnNonces, pool: seq<Txn>, time: int, nonce: nat)
    returns (b: Block, success: bool, ghost l: Ledger)
    requires Serves(client, main) && |main| == 1 && main[0].header.seqNum == 0
    requires IsHonestBlock(client.c, EMPTY, BlockPlan(key, r, []), main[0])
    requires Deployed(client.c) && GeneratedKey(client.c, key) && NoncesFor(client.c, nonces, 2)
    requires nonces.outputs[0].q % ORDER != 0 && nonces.outputs[1].q % ORDER != 0
    requires
      var notes, p := FirstNotes(client.c, key, r), WholeCoinbase(client.c, key, nonces);
      ValidPayment(client.c, notes, p)
      && pool == [PaymentTxn(client.c, notes, p), PaymentTxn(client.c, notes, p)]
    requires
      var next := Candidate(client, env, key, r, pool, time, nonce);
      env.admissible(next) && client.Genuine(next, client.c.BlockHash(next)) && time + Client.TWO_HOURS >= env.now
    modifies client
    ensures client.Valid() && (success <==> Worked(client.c, b.header))
    ensures success ==> client.Tip() in client.tree && client.Main() == main + [b]
    ensures
      var p := WholeCoinbase(client.c, key, nonces);
      && PaymentsPass(client.c, l, [p, p]) && Sound(client.c, l)
      && Total(Extend(client.c, l, BlockPlan(key, r, [p, p]))) == Subsidy.Supply(2) + Subsidy.INITIAL_SUBSIDY
  {
    hide HashesTell, Separate, Sound, Total, Extend, NoncesFor, GeneratedKey, IsHonestBlock, Candidate, Worked,
         Mirrors, PaymentTxn, ValidPayment, NoRepeats, Realises, LedgerAfter, GoodRun, PaymentsPass,
         Client.Client.Valid, FirstNotes;
    ghost var c, p, first := client.c, WholeCoinbase(client.c, key, nonces), BlockPlan(key, r, []);
    CoinbaseSpentTwice(c, key, r, nonces);
    FirstLedgerHolds(c, key, r);
    l := LedgerAfter(c, [first]);
    assert main == [main[0]];
    NoPaymentsPass(c);
    FirstBlockTells(c, first, main[0]);
    FirstRealises(c, main[0], first);
    assert pool == PaymentTxns(c, l, [p, p]);
    b, success := MineNext(client, env, main, [first], [p, p], key, r, pool, time, nonce);
  }

  lemma FirstRealises(c: Suite, b: Block, first: BlockPlan)
    requires GoodRun(c, [first]) && PaymentsPass(c, EMPTY, first.payments) && IsHonestBlock(c, EMPTY, first, b)
    requires b.header.seqNum == 0
    ensures Realises(c, [b], [first])
  {
    hide IsHonestBlock;
    assert [b][..0] == [] && [first][..0] == [];
    assert Realises(c, [], []);
  }

  // --- A proof that is not the commitment's ---

  /**
   A concrete input on which accepted amounts do not balance: from any ring whose member
   at idx opens to v, with an unspent image, outputs of ORDER - 1 and v + 1 are accepted.
   */
  lemma OverdraftAcceptable(c: Suite, t: Records, env: Env, ring: seq<Output>, sk: nat, yi: nat, v: nat, idx: nat,
                            b1: nat, b2: nat, bitNonces: seq<BitNonce>, nonces: SignNonces)
    returns (txn: Txn)
    requires |ring| == c.ring == |nonces.rs| == |nonces.ss| && idx < c.ring && |bitNonces| == c.bits
    requires forall i :: 0 <= i < c.ring ==>
      Usable(c, t, env, c.OutputHash(ring[i]), {}) && FoundOutput(c, t, env, c.OutputHash(ring[i])) == Ok(ring[i])
    requires ring[idx].destKey == ScalarBaseMult(sk) && ring[idx].commit.point == PedersenSum(yi, v)
    requires !Spent(t, c.hash(c.encode(c.Preimage(ring[idx].destKey, sk))))
    ensures txn.body == OverdraftBody(c, InputHashes(c, ring), v, b1, b2, bitNonces)
    ensures OutputsOpen(txn.body.outputs, [b1, b2], [ORDER - 1, v + 1])
    ensures ValidTxn(c, txn) && AcceptableTxn(c, t, env, txn, {}, {})
  {
    hide Accepts, Verifies, Usable, FoundOutput, PedersenSum, ScalarBaseMult, Spent, Suite.OutputHash, OutputsOpen;
    var body := OverdraftBody(c, InputHashes(c, ring), v, b1, b2, bitNonces);
    var pks, ics := DestKeys(ring), InputCommits(ring);
    txn := Txn(body, SignedBody(c, body, pks, ics, sk, yi, idx, b1 + b2, nonces));
    OverdraftAccepted(c, InputHashes(c, ring), pks, ics, sk, yi, v, idx, b1, b2, bitNonces, nonces);
    OverdraftForm(c, txn, pks, ics, sk, yi, v, idx, b1, b2, bitNonces, nonces);
    UsableRing(c, t, env, ring, body.inputs);
  }

  lemma OverdraftForm(c: Suite, txn: Txn, pks: seq<Point>, ics: seq<Point>, sk: nat, yi: nat, v: nat, idx: nat, b1: nat,
                      b2: nat, bitNonces: seq<BitNonce>, nonces: SignNonces)
    requires |pks| == |ics| == c.ring == |nonces.rs| == |nonces.ss| && idx < c.ring && |bitNonces| == c.bits
    requires |txn.body.inputs| == c.ring && txn.body == OverdraftBody(c, txn.body.inputs, v, b1, b2, bitNonces)
    requires txn.sig == SignedBody(c, txn.body, pks, ics, sk, yi, idx, b1 + b2, nonces)
    ensures ValidTxn(c, txn) && txn.sig.preimage == c.Preimage(pks[idx], sk)
  {
    hide SignerChallenge, PedersenSum, TimeTravel, ZeroSumKey, Suite.Preimage, Answers, AmountKeys;
    assert |RangeSignature(c, 0, b1, bitNonces).pks| == |RangeSignature(c, 0, b2, bitNonces).pks| == c.bits;
  }

  lemma UsableRing(c: Suite, t: Records, env: Env, ring: seq<Output>, inputs: seq<Digest>)
    requires inputs == InputHashes(c, ring)
    requires forall i :: 0 <= i < |ring| ==>
      Usable(c, t, env, c.OutputHash(ring[i]), {}) && FoundOutput(c, t, env, c.OutputHash(ring[i])) == Ok(ring[i])
    ensures forall i :: 0 <= i < |inputs| ==> Usable(c, t, env, inputs[i], {})
    ensures (forall i :: 0 <= i < |inputs| ==> FoundOutput(c, t, env, inputs[i]).Ok?)
         && RingOutputs(c, t, env, inputs) == ring
  {
    hide Usable, FoundOutput, Suite.OutputHash;
    forall i | 0 <= i < |ring| ensures inputs[i] == c.OutputHash(ring[i]) {
    }
    assert RingOutputs(c, t, env, inputs) == ring;
  }
}
