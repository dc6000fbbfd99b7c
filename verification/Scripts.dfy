/** Evaluation of locking scripts against a spending input (`evaluate_script` in src/blockchain/chain.rs). */
module Scripts {
  import opened Basics
  import opened Transactions

  /** The (signature, key) pairs an input offers: its own slot, then its witnesses. */
  function Signers(input: TxInput): (r: seq<Witness>)
    ensures |r| == 1 + |input.witnesses|
  {
    [Witness(input.signature, input.pubkey)] + input.witnesses
  }

  predicate ValidSigner(c: Crypto, w: Witness, pubkeys: seq<PublicKey>, sigHash: Bytes) {
    w.pubkey in pubkeys && c.verify(w.signature, sigHash, w.pubkey)
  }

  function CountValid(c: Crypto, ws: seq<Witness>, pubkeys: seq<PublicKey>, sigHash: Bytes): (n: nat)
    ensures n <= |ws|
  {
    if ws == [] then 0
    else
      CountValid(c, ws[..|ws| - 1], pubkeys, sigHash)
      + if ValidSigner(c, ws[|ws| - 1], pubkeys, sigHash) then 1 else 0
  }

  /** Whether `input` satisfies `script` when the block clock reads `blockTime`. */
  predicate Satisfies(c: Crypto, script: Script, input: TxInput, sigHash: Bytes, blockTime: nat) {
    match script
    case P2PKH(owner) =>
      c.verify(input.signature, sigHash, input.pubkey) && c.hybridAddress(input.pubkey) == Some(owner)
    case P2MS(m, pubkeys) =>
      |Signers(input)| >= m && CountValid(c, Signers(input)[..m], pubkeys, sigHash) >= m
    case TimeLocked(lockUntil, inner) =>
      blockTime >= lockUntil && Satisfies(c, inner, input, sigHash, blockTime)
  }

  method CountValidSigners(c: Crypto, ws: seq<Witness>, pubkeys: seq<PublicKey>, sigHash: Bytes) returns (count: nat)
    ensures count == CountValid(c, ws, pubkeys, sigHash)
  {
    count := 0;
    for i := 0 to |ws|
      invariant count == CountValid(c, ws[..i], pubkeys, sigHash)
    {
      assert ws[..i + 1][..i] == ws[..i];
      var j, found := 0, false;
      while j < |pubkeys| && !found
        invariant 0 <= j <= |pubkeys|
        invariant found <==> ws[i].pubkey in pubkeys[..j] && c.verify(ws[i].signature, sigHash, ws[i].pubkey)
        decreases |pubkeys| - j, !found
      {
        found := pubkeys[j] == ws[i].pubkey && c.verify(ws[i].signature, sigHash, ws[i].pubkey);
        j := j + 1;
      }
      assert pubkeys[..|pubkeys|] == pubkeys;
      if found { count := count + 1; }
    }
    assert ws[..|ws|] == ws;
  }

  /** The recursive evaluator, with its counting loop for multisig. */
  method EvaluateScript(c: Crypto, script: Script, input: TxInput, sigHash: Bytes, blockTime: nat) returns (ok: bool)
    ensures ok == Satisfies(c, script, input, sigHash, blockTime)
    decreases script
  {
    match script
    case P2PKH(owner) =>
      var derived := c.hybridAddress(input.pubkey);
      if derived.None? || !c.verify(input.signature, sigHash, input.pubkey) { return false; }
      return derived.value == owner;
    case P2MS(m, pubkeys) =>
      var signers := Signers(input);
      if |signers| < m { return false; }
      var count := CountValidSigners(c, signers[..m], pubkeys, sigHash);
      return count >= m;
    case TimeLocked(lockUntil, inner) =>
      if blockTime < lockUntil { return false; }
      ok := EvaluateScript(c, inner, input, sigHash, blockTime);
  }

  lemma {:induction false} AllMustBeValid(c: Crypto, ws: seq<Witness>, pubkeys: seq<PublicKey>, sigHash: Bytes)
    ensures CountValid(c, ws, pubkeys, sigHash) == |ws| <==>
            forall i | 0 <= i < |ws| :: ValidSigner(c, ws[i], pubkeys, sigHash)
  {
    if ws != [] {
      AllMustBeValid(c, ws[..|ws| - 1], pubkeys, sigHash);
    }
  }

  /** m-of-n is met exactly when the first m offered pairs all verify under registered keys:
      one bad pair among them is fatal, and pairs past the m-th are never looked at. */
  lemma MultisigExact(c: Crypto, m: Byte, pubkeys: seq<PublicKey>, input: TxInput, sigHash: Bytes, blockTime: nat)
    ensures Satisfies(c, P2MS(m, pubkeys), input, sigHash, blockTime) <==>
            m <= |Signers(input)| && forall i | 0 <= i < m :: ValidSigner(c, Signers(input)[i], pubkeys, sigHash)
  {
    if m <= |Signers(input)| {
      var ws := Signers(input)[..m];
      AllMustBeValid(c, ws, pubkeys, sigHash);
      assert forall i | 0 <= i < m :: ws[i] == Signers(input)[i];
    }
  }

  // ---------- the documented rule: each signature covers a distinct key ----------

  /** The registered keys for which some pair of `ws` verifies. */
  function Covered(c: Crypto, ws: seq<Witness>, pubkeys: seq<PublicKey>, sigHash: Bytes): set<PublicKey> {
    set w | w in ws && ValidSigner(c, w, pubkeys, sigHash) :: w.pubkey
  }

  /** `m` different registered keys each have a verifying pair in `ws`. */
  predicate DistinctKeyRule(c: Crypto, m: nat, ws: seq<Witness>, pubkeys: seq<PublicKey>, sigHash: Bytes) {
    |Covered(c, ws, pubkeys, sigHash)| >= m
  }

  predicate DifferentKeys(ws: seq<Witness>) {
    forall i, j | 0 <= i < j < |ws| :: ws[i].pubkey != ws[j].pubkey
  }

  lemma CoveredGrows(c: Crypto, ws: seq<Witness>, pubkeys: seq<PublicKey>, sigHash: Bytes)
    requires ws != [] && ValidSigner(c, ws[|ws| - 1], pubkeys, sigHash)
    ensures Covered(c, ws, pubkeys, sigHash) == Covered(c, ws[..|ws| - 1], pubkeys, sigHash) + {ws[|ws| - 1].pubkey}
  {
    var front, last := ws[..|ws| - 1], ws[|ws| - 1];
    assert ws == front + [last];
  }

  /** Among verifying pairs, as many keys are covered as there are pairs exactly when the keys all differ. */
  lemma {:induction false} CoveredCount(c: Crypto, ws: seq<Witness>, pubkeys: seq<PublicKey>, sigHash: Bytes)
    requires forall i | 0 <= i < |ws| :: ValidSigner(c, ws[i], pubkeys, sigHash)
    ensures |Covered(c, ws, pubkeys, sigHash)| <= |ws|
    ensures |Covered(c, ws, pubkeys, sigHash)| == |ws| <==> DifferentKeys(ws)
  {
    if ws != [] {
      var front, last := ws[..|ws| - 1], ws[|ws| - 1];
      CoveredCount(c, front, pubkeys, sigHash);
      CoveredGrows(c, ws, pubkeys, sigHash);
      DifferentGrows(ws);
      KeyRepeats(c, front, last.pubkey, pubkeys, sigHash);
    }
  }

  predicate Offers(ws: seq<Witness>, key: PublicKey) { exists i | 0 <= i < |ws| :: ws[i].pubkey == key }

  lemma DifferentGrows(ws: seq<Witness>)
    requires ws != []
    ensures DifferentKeys(ws) <==> DifferentKeys(ws[..|ws| - 1]) && !Offers(ws[..|ws| - 1], ws[|ws| - 1].pubkey)
  {
    var front, key := ws[..|ws| - 1], ws[|ws| - 1].pubkey;
    if DifferentKeys(front) && !Offers(front, key) {
      forall i, j | 0 <= i < j < |ws| ensures ws[i].pubkey != ws[j].pubkey { assert front[i] == ws[i]; }
    }
  }

  lemma KeyRepeats(c: Crypto, ws: seq<Witness>, key: PublicKey, pubkeys: seq<PublicKey>, sigHash: Bytes)
    requires forall i | 0 <= i < |ws| :: ValidSigner(c, ws[i], pubkeys, sigHash)
    ensures key in Covered(c, ws, pubkeys, sigHash) <==> Offers(ws, key)
  {
    if i :| 0 <= i < |ws| && ws[i].pubkey == key {
      assert ws[i] in ws;
    }
  }

  /** Per input: an input that satisfies m-of-n meets the documented rule with the pairs that were counted exactly when
      the first m keys it offers are pairwise different. */
  lemma RulePerInput(c: Crypto, m: Byte, pubkeys: seq<PublicKey>, input: TxInput, sigHash: Bytes, blockTime: nat)
    requires Satisfies(c, P2MS(m, pubkeys), input, sigHash, blockTime)
    ensures DistinctKeyRule(c, m, Signers(input)[..m], pubkeys, sigHash) <==> DifferentKeys(Signers(input)[..m])
  {
    MultisigExact(c, m, pubkeys, input, sigHash, blockTime);
    CoveredCount(c, Signers(input)[..m], pubkeys, sigHash);
  }

  /** An input that offers one pair `m` times over. */
  function Repeated(m: nat, w: Witness): TxInput
    requires m >= 1
  {
    TxInput("", 0, w.signature, w.pubkey, [], seq(m - 1, _ => w))
  }

  /** One registered key, repeated, meets any threshold and covers one key only. */
  lemma RepeatedSignerSuffices(c: Crypto, m: Byte, pubkeys: seq<PublicKey>, w: Witness, sigHash: Bytes, blockTime: nat)
    requires m >= 1 && ValidSigner(c, w, pubkeys, sigHash)
    ensures Satisfies(c, P2MS(m, pubkeys), Repeated(m, w), sigHash, blockTime)
    ensures Covered(c, Signers(Repeated(m, w)), pubkeys, sigHash) == {w.pubkey}
  {
    var input := Repeated(m, w);
    assert forall i | 0 <= i < |Signers(input)| :: Signers(input)[i] == w;
    MultisigExact(c, m, pubkeys, input, sigHash, blockTime);
    assert Signers(input)[0] in Signers(input);
  }

  /** Whoever satisfies the script offers `m` different registered keys. */
  ghost predicate RuleEnforced(c: Crypto, m: Byte, pubkeys: seq<PublicKey>, sigHash: Bytes, blockTime: nat) {
    forall input: TxInput | Satisfies(c, P2MS(m, pubkeys), input, sigHash, blockTime) ::
      DistinctKeyRule(c, m, Signers(input), pubkeys, sigHash)
  }

  ghost predicate NothingVerifies(c: Crypto, pubkeys: seq<PublicKey>, sigHash: Bytes) {
    forall w: Witness :: !ValidSigner(c, w, pubkeys, sigHash)
  }

  lemma OneSignerCovers(c: Crypto, m: Byte, pubkeys: seq<PublicKey>, input: TxInput, sigHash: Bytes, blockTime: nat)
    requires Satisfies(c, P2MS(m, pubkeys), input, sigHash, blockTime) && m <= 1
    ensures DistinctKeyRule(c, m, Signers(input), pubkeys, sigHash)
  {
    MultisigExact(c, m, pubkeys, input, sigHash, blockTime);
    var w := Signers(input)[0];
    if m == 1 {
      assert ValidSigner(c, w, pubkeys, sigHash) && w in Signers(input);
      assert w.pubkey in Covered(c, Signers(input), pubkeys, sigHash);
    }
  }

  /** Per script: the code enforces the documented rule exactly when the threshold is at most one, or no registered key
      verifies anything under this digest, so that the script cannot be satisfied at all. */
  lemma RulePerScript(c: Crypto, m: Byte, pubkeys: seq<PublicKey>, sigHash: Bytes, blockTime: nat)
    ensures RuleEnforced(c, m, pubkeys, sigHash, blockTime) <==> m <= 1 || NothingVerifies(c, pubkeys, sigHash)
  {
    if m <= 1 {
      forall input: TxInput | Satisfies(c, P2MS(m, pubkeys), input, sigHash, blockTime)
        ensures DistinctKeyRule(c, m, Signers(input), pubkeys, sigHash)
      {
        OneSignerCovers(c, m, pubkeys, input, sigHash, blockTime);
      }
    } else if NothingVerifies(c, pubkeys, sigHash) {
      forall input: TxInput ensures !Satisfies(c, P2MS(m, pubkeys), input, sigHash, blockTime) {
        MultisigExact(c, m, pubkeys, input, sigHash, blockTime);
        assert !ValidSigner(c, Signers(input)[0], pubkeys, sigHash);
      }
    } else {
      var w: Witness :| ValidSigner(c, w, pubkeys, sigHash);
      RepeatedSignerSuffices(c, m, pubkeys, w, sigHash, blockTime);
    }
  }

  /** Through any nesting of time locks, a satisfied script stays satisfied as the clock advances. */
  lemma {:induction false} SatisfiesLater(c: Crypto, script: Script, input: TxInput, sigHash: Bytes, t0: nat, t1: nat)
    requires Satisfies(c, script, input, sigHash, t0) && t0 <= t1
    ensures Satisfies(c, script, input, sigHash, t1)
  {
    match script
    case P2PKH(_) =>
    case P2MS(_, _) =>
    case TimeLocked(_, inner) => SatisfiesLater(c, inner, input, sigHash, t0, t1);
  }

  /** Every time lock of the script has passed. */
  predicate Unlocked(script: Script, blockTime: nat) {
    match script
    case TimeLocked(lockUntil, inner) => lockUntil <= blockTime && Unlocked(inner, blockTime)
    case _ => true
  }

  /** A script once satisfied by an input is satisfied by it at any other time, earlier or later, exactly when all its
      time locks have passed then. */
  lemma {:induction false} SatisfiesAgain(c: Crypto, script: Script, input: TxInput, sigHash: Bytes, t0: nat, t1: nat)
    requires Satisfies(c, script, input, sigHash, t0)
    ensures Satisfies(c, script, input, sigHash, t1) <==> Unlocked(script, t1)
    ensures Unlocked(script, t0)
  {
    match script
    case P2PKH(_) =>
    case P2MS(_, _) =>
    case TimeLocked(_, inner) => SatisfiesAgain(c, inner, input, sigHash, t0, t1);
  }

  // ---------- what a script asks of its spender ----------

  /** The script under all time locks. */
  function Core(script: Script): (core: Script)
    ensures !core.TimeLocked?
  {
    match script
    case TimeLocked(_, inner) => Core(inner)
    case _ => script
  }

  /** Whoever may spend has agreed: all time locks have passed, and under them either the key hashes to the owner's address
      and its signature verifies, or the first m offered pairs all verify under registered keys. */
  predicate Consents(c: Crypto, script: Script, input: TxInput, sigHash: Bytes, blockTime: nat) {
    && Unlocked(script, blockTime)
    && (Core(script).P2PKH? ==>
          c.hybridAddress(input.pubkey) == Some(Core(script).owner) && c.verify(input.signature, sigHash, input.pubkey))
    && (Core(script).P2MS? ==>
          && Core(script).m <= 1 + |input.witnesses|
          && forall i | 0 <= i < Core(script).m :: ValidSigner(c, Signers(input)[i], Core(script).pubkeys, sigHash))
  }

  /** Exactly what any script, under any nesting of time locks, asks of the input that spends it. */
  lemma {:induction false} SatisfiesExactly(c: Crypto, script: Script, input: TxInput, sigHash: Bytes, blockTime: nat)
    ensures Satisfies(c, script, input, sigHash, blockTime) <==> Consents(c, script, input, sigHash, blockTime)
  {
    match script
    case P2PKH(_) =>
    case P2MS(m, pubkeys) => MultisigExact(c, m, pubkeys, input, sigHash, blockTime);
    case TimeLocked(_, inner) => SatisfiesExactly(c, inner, input, sigHash, blockTime);
  }
}
