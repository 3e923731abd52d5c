// crates/hyper-receipts/src/receipt.rs: the hash-chained audit log.
//
// The hash is any function from texts to "sha384:" texts of the right length; no
// theorem assumes that it has no collisions. Where a law needs that, the theorem
// hands back the colliding pair instead.
module Receipts {
  import opened Json
  import opened Wrappers
  import Decimal

  type Digest = d: string -> string | forall t: string :: |d(t)| == 103 && d(t)[..7] == "sha384:"
    ghost witness _ => "sha384:" + seq(96, _ => '0')

  const SCHEMA: string := "chain.receipt.v1"
  const GENESIS: string := "sha384:" + Digits(96)

  function Digits(n: nat): string { seq(n, _ => '0') }

  /** The fields the receipt hash commits to. */
  datatype Canonical = Canonical(
    schema: string, event: string, subject: string, decision: string,
    policyId: string, inputsHash: string, previousHash: string)

  datatype Signature = Signature(alg: string, keyId: string)

  datatype Receipt = Receipt(id: string, body: Canonical, hash: string, signature: Option<Signature>)

  datatype ChainError =
    | BadSchema(index: nat, expected: string, found: string)
    | HashMismatch(index: nat, expected: string, found: string)
    | BrokenLink(index: nat, expected: string, found: string)

  /** The receipt hash as a function of the committed fields; `BodyHash` below is the real one. */
  type Hash = h: Canonical -> string | forall c: Canonical :: |h(c)| == 103 && h(c)[..7] == "sha384:"
    ghost witness _ => "sha384:" + seq(96, _ => '0')

  // ---- The chain as a value -------------------------------------------------

  function Head(genesis: string, rs: seq<Receipt>): string {
    if rs == [] then genesis else rs[|rs| - 1].hash
  }

  function ReceiptId(index: nat, hash: string): string
    requires |hash| >= 23
  {
    "rcpt-" + Decimal.Padded(index, 6) + "-" + hash[7..23]
  }

  function Entry(h: Hash, genesis: string, rs: seq<Receipt>,
                 event: string, subject: string, decision: string, policyId: string, inputsHash: string): Receipt {
    var body := Canonical(SCHEMA, event, subject, decision, policyId, inputsHash, Head(genesis, rs));
    var hash := h(body);
    Receipt(ReceiptId(|rs|, hash), body, hash, None)
  }

  /** What `verify` finds wrong with the receipt at `i`, if anything. */
  function ErrorAt(h: Hash, genesis: string, rs: seq<Receipt>, i: nat): Option<ChainError>
    requires i < |rs|
  {
    var r := rs[i];
    var prev := Head(genesis, rs[..i]);
    if r.body.schema != SCHEMA then Some(BadSchema(i, SCHEMA, r.body.schema))
    else if r.body.previousHash != prev then Some(BrokenLink(i, prev, r.body.previousHash))
    else if h(r.body) != r.hash then Some(HashMismatch(i, h(r.body), r.hash))
    else None
  }

  /** Every receipt has the schema, links to its predecessor and carries its own hash. */
  ghost predicate Verifies(h: Hash, genesis: string, rs: seq<Receipt>) {
    forall i | 0 <= i < |rs| :: ErrorAt(h, genesis, rs, i) == None
  }

  lemma ErrorAtPrefix(h: Hash, genesis: string, rs: seq<Receipt>, n: nat, i: nat)
    requires i < n <= |rs|
    ensures ErrorAt(h, genesis, rs[..n], i) == ErrorAt(h, genesis, rs, i)
  {
    assert rs[..n][..i] == rs[..i];
  }

  lemma PrefixVerifies(h: Hash, genesis: string, rs: seq<Receipt>, n: nat)
    requires Verifies(h, genesis, rs) && n <= |rs|
    ensures Verifies(h, genesis, rs[..n])
  {
    forall i | 0 <= i < n
      ensures ErrorAt(h, genesis, rs[..n], i) == None
    {
      ErrorAtPrefix(h, genesis, rs, n, i);
    }
  }

  /** `append` makes a valid chain of a chain exactly when that chain was valid. */
  lemma AppendVerifies(h: Hash, genesis: string, rs: seq<Receipt>,
                       event: string, subject: string, decision: string, policyId: string, inputsHash: string)
    ensures Verifies(h, genesis, rs)
       <==> Verifies(h, genesis, rs + [Entry(h, genesis, rs, event, subject, decision, policyId, inputsHash)])
  {
    var all := rs + [Entry(h, genesis, rs, event, subject, decision, policyId, inputsHash)];
    assert all[..|rs|] == rs;
    forall i | 0 <= i < |rs|
      ensures ErrorAt(h, genesis, all, i) == ErrorAt(h, genesis, rs, i)
    {
      ErrorAtPrefix(h, genesis, all, |rs|, i);
    }
    assert ErrorAt(h, genesis, all, |rs|) == None;
    if Verifies(h, genesis, all) {
      PrefixVerifies(h, genesis, all, |rs|);
    }
  }

  /** A chain as one value, for the state machines that append to it. */
  datatype Log = Log(hash: Hash, genesis: string, receipts: seq<Receipt>) {
    function Append(event: string, subject: string, decision: string, policyId: string, inputsHash: string): Log {
      this.(receipts := receipts + [Entry(hash, genesis, receipts, event, subject, decision, policyId, inputsHash)])
    }

    ghost predicate Valid() { Verifies(hash, genesis, receipts) }
  }

  // ---- What an append and a verification mean, field by field -------------------

  /** An append stores each argument in its own field, links to the old head and hashes what it stores. */
  lemma AppendStores(log: Log, event: string, subject: string, decision: string, policyId: string, inputsHash: string)
    ensures
      var n := |log.receipts|;
      var log' := log.Append(event, subject, decision, policyId, inputsHash);
      var r := log'.receipts[n];
      && |log'.receipts| == n + 1 && log'.receipts[..n] == log.receipts
      && log'.hash == log.hash && log'.genesis == log.genesis
      && r.body.event == event && r.body.subject == subject && r.body.decision == decision
      && r.body.policyId == policyId && r.body.inputsHash == inputsHash
      && r.body.schema == "chain.receipt.v1"
      && r.body.previousHash == (if n == 0 then log.genesis else log.receipts[n - 1].hash)
      && r.hash == log.hash(r.body)
      && r.id == "rcpt-" + Decimal.Padded(n, 6) + "-" + r.hash[7..23]
      && r.signature == None
  {
    hide Decimal.Padded;
  }

  /** The arguments of an append. */
  datatype Claim = Claim(event: string, subject: string, decision: string, policyId: string, inputsHash: string)

  function Claimed(log: Log, c: Claim): Log {
    log.Append(c.event, c.subject, c.decision, c.policyId, c.inputsHash)
  }

  /** Appends with different arguments leave different logs, and different committed fields. */
  lemma AppendsDiffer(log: Log, c: Claim, d: Claim)
    requires c != d
    ensures Claimed(log, c) != Claimed(log, d)
    ensures Claimed(log, c).receipts[|log.receipts|].body != Claimed(log, d).receipts[|log.receipts|].body
  {
    hide Entry;
    AppendStores(log, c.event, c.subject, c.decision, c.policyId, c.inputsHash);
    AppendStores(log, d.event, d.subject, d.decision, d.policyId, d.inputsHash);
  }

  /** A chain verifies exactly when each receipt has the schema, the hash before it and its own hash. */
  lemma VerifiesMeans(h: Hash, genesis: string, rs: seq<Receipt>)
    ensures Verifies(h, genesis, rs) <==>
      forall i | 0 <= i < |rs| ::
        && rs[i].body.schema == "chain.receipt.v1"
        && rs[i].body.previousHash == (if i == 0 then genesis else rs[i - 1].hash)
        && rs[i].hash == h(rs[i].body)
  {
    forall i | 0 <= i < |rs|
      ensures Head(genesis, rs[..i]) == if i == 0 then genesis else rs[i - 1].hash
    {
    }
    if forall i | 0 <= i < |rs| ::
        && rs[i].body.schema == "chain.receipt.v1"
        && rs[i].body.previousHash == (if i == 0 then genesis else rs[i - 1].hash)
        && rs[i].hash == h(rs[i].body)
    {
      forall i | 0 <= i < |rs|
        ensures ErrorAt(h, genesis, rs, i) == None
      {
      }
    }
    if Verifies(h, genesis, rs) {
      forall i | 0 <= i < |rs|
        ensures rs[i].body.schema == "chain.receipt.v1"
        ensures rs[i].body.previousHash == (if i == 0 then genesis else rs[i - 1].hash)
        ensures rs[i].hash == h(rs[i].body)
      {
        assert ErrorAt(h, genesis, rs, i) == None;
      }
    }
  }

  /** The schema is checked first, then the link, then the hash; each error shows what was expected and found. */
  lemma ErrorMeans(h: Hash, genesis: string, rs: seq<Receipt>, i: nat)
    requires i < |rs|
    ensures
      var r, e := rs[i], ErrorAt(h, genesis, rs, i);
      var prev := if i == 0 then genesis else rs[i - 1].hash;
      var schema, link := r.body.schema == "chain.receipt.v1", r.body.previousHash == prev;
      && (e == Some(BadSchema(i, "chain.receipt.v1", r.body.schema)) <==> !schema)
      && (e == Some(BrokenLink(i, prev, r.body.previousHash)) <==> schema && !link)
      && (e == Some(HashMismatch(i, h(r.body), r.hash)) <==> schema && link && h(r.body) != r.hash)
  {
    assert rs[..i] == [] <==> i == 0;
  }

  // ---- Tamper evidence ------------------------------------------------------

  /** Different committed fields with one hash. */
  predicate Clash(h: Hash, x: Canonical, y: Canonical) {
    x != y && h(x) == h(y)
  }

  ghost predicate SomeClash(h: Hash, a: seq<Receipt>, b: seq<Receipt>) {
    exists i, j :: 0 <= i < |a| && 0 <= j < |b| && Clash(h, a[i].body, b[j].body)
  }

  /** The last `n` receipts of both agree in every canonical field and in their hash. */
  ghost predicate SameTail(a: seq<Receipt>, b: seq<Receipt>, n: nat)
    requires n <= |a| && n <= |b|
  {
    forall k | 1 <= k <= n :: SameAt(a, b, k)
  }

  predicate SameAt(a: seq<Receipt>, b: seq<Receipt>, k: nat)
    requires 1 <= k <= |a| && k <= |b|
  {
    a[|a| - k].body == b[|b| - k].body && a[|a| - k].hash == b[|b| - k].hash
  }

  /** The receipt just before the last `n` hashes to the genesis text. */
  predicate HashesToGenesis(genesis: string, longer: seq<Receipt>, n: nat)
    requires n < |longer|
  {
    longer[|longer| - n - 1].hash == genesis
  }

  function Shorter(a: seq<Receipt>, b: seq<Receipt>): nat { if |a| <= |b| then |a| else |b| }

  /** Equal heads commit to equal histories, or expose a clash or a preimage of the genesis text. */
  lemma {:induction false} TamperEvidence(h: Hash, genesis: string, a: seq<Receipt>, b: seq<Receipt>)
    requires Verifies(h, genesis, a) && Verifies(h, genesis, b)
    requires Head(genesis, a) == Head(genesis, b)
    ensures SomeClash(h, a, b) || SameTail(a, b, Shorter(a, b))
    ensures SomeClash(h, a, b) || |a| == |b| || HashesToGenesis(genesis, if |a| < |b| then b else a, Shorter(a, b))
    decreases |a|
  {
    if a != [] && b != [] {
      LastStep(h, genesis, a);
      LastStep(h, genesis, b);
      if a[|a| - 1].body != b[|b| - 1].body {
        assert Clash(h, a[|a| - 1].body, b[|b| - 1].body);
      } else {
        TamperEvidence(h, genesis, a[..|a| - 1], b[..|b| - 1]);
        ClashLifts(h, a, b);
        TailLifts(a, b);
      }
    }
  }

  /** The last receipt of a valid chain hashes its own fields and names the head before it. */
  lemma LastStep(h: Hash, genesis: string, a: seq<Receipt>)
    requires Verifies(h, genesis, a) && a != []
    ensures Verifies(h, genesis, a[..|a| - 1])
    ensures a[|a| - 1].hash == h(a[|a| - 1].body)
    ensures a[|a| - 1].body.previousHash == Head(genesis, a[..|a| - 1])
  {
    PrefixVerifies(h, genesis, a, |a| - 1);
    assert ErrorAt(h, genesis, a, |a| - 1) == None;
  }

  lemma ClashLifts(h: Hash, a: seq<Receipt>, b: seq<Receipt>)
    requires a != [] && b != []
    ensures SomeClash(h, a[..|a| - 1], b[..|b| - 1]) ==> SomeClash(h, a, b)
  {
    var a', b' := a[..|a| - 1], b[..|b| - 1];
    if SomeClash(h, a', b') {
      var i, j :| 0 <= i < |a'| && 0 <= j < |b'| && Clash(h, a'[i].body, b'[j].body);
      assert Clash(h, a[i].body, b[j].body);
    }
  }

  lemma TailLifts(a: seq<Receipt>, b: seq<Receipt>)
    requires a != [] && b != [] && SameAt(a, b, 1)
    ensures SameTail(a[..|a| - 1], b[..|b| - 1], Shorter(a, b) - 1) ==> SameTail(a, b, Shorter(a, b))
  {
    var a', b' := a[..|a| - 1], b[..|b| - 1];
    if SameTail(a', b', Shorter(a, b) - 1) {
      forall k | 1 <= k <= Shorter(a, b)
        ensures SameAt(a, b, k)
      {
        if k > 1 {
          assert SameAt(a', b', k - 1);
        }
      }
    }
  }

  /** Editing a receipt of a valid chain, without moving its head, is caught or exposes a clash. */
  lemma EditIsDetected(h: Hash, genesis: string, rs: seq<Receipt>, edited: seq<Receipt>, i: nat)
    requires Verifies(h, genesis, rs) && |edited| == |rs| && i < |rs|
    requires Head(genesis, edited) == Head(genesis, rs)
    requires edited[i].body != rs[i].body || edited[i].hash != rs[i].hash
    ensures !Verifies(h, genesis, edited) || SomeClash(h, rs, edited)
  {
    if Verifies(h, genesis, edited) {
      TamperEvidence(h, genesis, rs, edited);
      assert !SameAt(rs, edited, |rs| - i);
    }
  }

  /** Ids of receipts at different positions differ, whatever their hashes. */
  lemma ReceiptIdsDistinct(i: nat, h: string, j: nat, k: string)
    requires |h| >= 23 && |k| >= 23 && i != j
    ensures ReceiptId(i, h) != ReceiptId(j, k)
  {
    hide Decimal.Padded;
    var p, q := Decimal.Padded(i, 6), Decimal.Padded(j, 6);
    if ReceiptId(i, h) == ReceiptId(j, k) {
      assert ReceiptId(i, h)[5..] == p + "-" + h[7..23];
      assert ReceiptId(j, k)[5..] == q + "-" + k[7..23];
      Decimal.NumeralPrefix(p, h[7..23], q, k[7..23]);
      Decimal.PaddedInjective(i, j, 6);
    }
  }

  // ---- The hash of the encoded fields ---------------------------------------

  /** The JSON object that `serde_json` writes for the canonical fields. */
  function Encode(c: Canonical): string {
    "{\"schema\":" + QuoteThen(c.schema,
    ",\"event\":" + QuoteThen(c.event,
    ",\"subject\":" + QuoteThen(c.subject,
    ",\"decision\":" + QuoteThen(c.decision,
    ",\"policy_id\":" + QuoteThen(c.policyId,
    ",\"inputs_hash\":" + QuoteThen(c.inputsHash,
    ",\"previous_receipt_hash\":" + QuoteThen(c.previousHash, "}")))))))
  }

  /** `compute_receipt_hash`: the digest of the encoded fields. */
  function BodyHash(d: Digest): Hash {
    var h := (c: Canonical) => d(Encode(c));
    assert forall c: Canonical :: h(c) == d(Encode(c));
    h
  }

  function FieldsOf(c: Canonical): seq<Field> {
    [ Field("schema", c.schema), Field("event", c.event), Field("subject", c.subject),
      Field("decision", c.decision), Field("policy_id", c.policyId), Field("inputs_hash", c.inputsHash),
      Field("previous_receipt_hash", c.previousHash) ]
  }

  /** The text that is hashed is the JSON object of the seven fields under their names, in declaration order. */
  lemma EncodeIsObject(c: Canonical)
    ensures Encode(c) == ObjectText(FieldsOf(c))
  {
    hide Members;
    hide ObjectText;
    hide EscapeThen;
    hide QuoteThen;
    var f := FieldsOf(c);
    assert f[7..] == [];
    LastMembers();
    PreviousHashMember(f);
    InputsHashMember(f);
    PolicyIdMember(f);
    DecisionMember(f);
    SubjectMember(f);
    EventMember(f);
    FirstMember(f);
  }

  lemma EventMember(f: seq<Field>)
    requires |f| == 7 && f[1].name == "event"
    ensures Members(f[1..], ",") == ",\"event\":" + QuoteThen(f[1].value, Members(f[2..], ","))
  {
    hide Members;
    hide QuoteThen;
    NamedMember(f, 1, "event", ",\"event\":");
  }

  lemma SubjectMember(f: seq<Field>)
    requires |f| == 7 && f[2].name == "subject"
    ensures Members(f[2..], ",") == ",\"subject\":" + QuoteThen(f[2].value, Members(f[3..], ","))
  {
    hide Members;
    hide QuoteThen;
    NamedMember(f, 2, "subject", ",\"subject\":");
  }

  lemma DecisionMember(f: seq<Field>)
    requires |f| == 7 && f[3].name == "decision"
    ensures Members(f[3..], ",") == ",\"decision\":" + QuoteThen(f[3].value, Members(f[4..], ","))
  {
    hide Members;
    hide QuoteThen;
    NamedMember(f, 3, "decision", ",\"decision\":");
  }

  lemma PolicyIdMember(f: seq<Field>)
    requires |f| == 7 && f[4].name == "policy_id"
    ensures Members(f[4..], ",") == ",\"policy_id\":" + QuoteThen(f[4].value, Members(f[5..], ","))
  {
    hide Members;
    hide QuoteThen;
    NamedMember(f, 4, "policy_id", ",\"policy_id\":");
  }

  lemma InputsHashMember(f: seq<Field>)
    requires |f| == 7 && f[5].name == "inputs_hash"
    ensures Members(f[5..], ",") == ",\"inputs_hash\":" + QuoteThen(f[5].value, Members(f[6..], ","))
  {
    hide Members;
    hide QuoteThen;
    NamedMember(f, 5, "inputs_hash", ",\"inputs_hash\":");
  }

  lemma PreviousHashPlain()
    ensures Plain("previous_receipt_hash")
  {
  }

  lemma PreviousHashPrefix()
    ensures ",\"previous_receipt_hash\":" == ",\"" + "previous_receipt_hash" + "\":"
  {
  }

  lemma PreviousHashMember(f: seq<Field>)
    requires |f| == 7 && f[6].name == "previous_receipt_hash"
    ensures Members(f[6..], ",") == ",\"previous_receipt_hash\":" + QuoteThen(f[6].value, Members(f[7..], ","))
  {
    hide Members;
    hide QuoteThen;
    hide Plain;
    PreviousHashPlain();
    PreviousHashPrefix();
    NamedMember(f, 6, "previous_receipt_hash", ",\"previous_receipt_hash\":");
  }

  lemma LastMembers()
    ensures Members([], ",") == "}"
  {
  }

  /** The members from `k` on, the first under its literal prefix. */
  lemma NamedMember(f: seq<Field>, k: nat, name: string, prefix: string)
    requires k < |f| && f[k].name == name && Plain(name) && prefix == ",\"" + name + "\":"
    ensures Members(f[k..], ",") == prefix + QuoteThen(f[k].value, Members(f[k + 1..], ","))
  {
    hide Members;
    hide EscapeThen;
    assert f[k..] == [Field(name, f[k].value)] + f[k + 1..];
    MemberText(",", name, f[k].value, f[k + 1..]);
  }

  lemma FirstMember(f: seq<Field>)
    requires f != [] && f[0].name == "schema"
    ensures ObjectText(f) == "{\"schema\":" + QuoteThen(f[0].value, Members(f[1..], ","))
  {
    hide Members;
    hide EscapeThen;
    assert f == [Field("schema", f[0].value)] + f[1..];
    MemberText("", "schema", f[0].value, f[1..]);
    var rest := QuoteThen(f[0].value, Members(f[1..], ","));
    assert "{" + ("" + "\"" + "schema" + "\":" + rest) == "{\"schema\":" + rest;
  }

  /** Different canonical fields have different encodings. */
  lemma EncodeInjective(a: Canonical, b: Canonical)
    requires Encode(a) == Encode(b)
    ensures a == b
  {
    var a6 := ",\"previous_receipt_hash\":" + QuoteThen(a.previousHash, "}");
    var b6 := ",\"previous_receipt_hash\":" + QuoteThen(b.previousHash, "}");
    var a5 := ",\"inputs_hash\":" + QuoteThen(a.inputsHash, a6);
    var b5 := ",\"inputs_hash\":" + QuoteThen(b.inputsHash, b6);
    var a4 := ",\"policy_id\":" + QuoteThen(a.policyId, a5);
    var b4 := ",\"policy_id\":" + QuoteThen(b.policyId, b5);
    var a3 := ",\"decision\":" + QuoteThen(a.decision, a4);
    var b3 := ",\"decision\":" + QuoteThen(b.decision, b4);
    var a2 := ",\"subject\":" + QuoteThen(a.subject, a3);
    var b2 := ",\"subject\":" + QuoteThen(b.subject, b3);
    var a1 := ",\"event\":" + QuoteThen(a.event, a2);
    var b1 := ",\"event\":" + QuoteThen(b.event, b2);
    FieldPeel("{\"schema\":", a.schema, a1, b.schema, b1);
    FieldPeel(",\"event\":", a.event, a2, b.event, b2);
    FieldPeel(",\"subject\":", a.subject, a3, b.subject, b3);
    FieldPeel(",\"decision\":", a.decision, a4, b.decision, b4);
    FieldPeel(",\"policy_id\":", a.policyId, a5, b.policyId, b5);
    FieldPeel(",\"inputs_hash\":", a.inputsHash, a6, b.inputsHash, b6);
    FieldPeel(",\"previous_receipt_hash\":", a.previousHash, "}", b.previousHash, "}");
  }

  lemma FieldPeel(name: string, a: string, ra: string, b: string, rb: string)
    requires name + QuoteThen(a, ra) == name + QuoteThen(b, rb)
    ensures a == b && ra == rb
  {
    DropPrefix(name, QuoteThen(a, ra), QuoteThen(b, rb));
    QuotePeel(a, ra, b, rb);
  }

  /** The texts of these two field lists differ and have one digest. */
  predicate TextsCollide(d: Digest, x: Canonical, y: Canonical) {
    Encode(x) != Encode(y) && d(Encode(x)) == d(Encode(y))
  }

  /** A clash of committed fields is a collision of the digest itself. */
  lemma ClashIsCollision(d: Digest, x: Canonical, y: Canonical)
    requires Clash(BodyHash(d), x, y)
    ensures TextsCollide(d, x, y)
  {
    if Encode(x) == Encode(y) {
      EncodeInjective(x, y);
    }
  }

  /**
   * Tamper evidence for the digest of the JSON text: unless the histories agree, receipt `i` of the one
   * and receipt `j` of the other are two texts with one digest, or a receipt hashes to the genesis text.
   */
  lemma AuditTamperEvidence(d: Digest, genesis: string, a: seq<Receipt>, b: seq<Receipt>) returns (i: nat, j: nat)
    requires Verifies(BodyHash(d), genesis, a) && Verifies(BodyHash(d), genesis, b)
    requires Head(genesis, a) == Head(genesis, b)
    ensures
      || (i < |a| && j < |b| && TextsCollide(d, a[i].body, b[j].body))
      || (|a| == |b| && SameTail(a, b, |a|))
      || (|a| != |b| && HashesToGenesis(genesis, if |a| < |b| then b else a, Shorter(a, b)))
  {
    hide Encode;
    i, j := 0, 0;
    TamperEvidence(BodyHash(d), genesis, a, b);
    if SomeClash(BodyHash(d), a, b) {
      i, j :| 0 <= i < |a| && 0 <= j < |b| && Clash(BodyHash(d), a[i].body, b[j].body);
      ClashIsCollision(d, a[i].body, b[j].body);
    }
  }

  // ---- The chain as an object -----------------------------------------------

  class ReceiptChain {
    const hash: Hash
    const genesis: string
    var receipts: seq<Receipt>

    ghost function Value(): Log
      reads this
    {
      Log(hash, genesis, receipts)
    }

    constructor (hash: Hash)
      ensures this.hash == hash && genesis == GENESIS && receipts == []
      ensures Verifies(hash, genesis, receipts)
    {
      this.hash := hash;
      genesis := GENESIS;
      receipts := [];
    }

    method HeadHash() returns (h: string)
      ensures h == Head(genesis, receipts)
    {
      if |receipts| > 0 {
        h := receipts[|receipts| - 1].hash;
      } else {
        h := genesis;
      }
    }

    method Append(event: string, subject: string, decision: string, policyId: string, inputsHash: string)
      returns (r: Receipt)
      modifies this
      ensures r == Entry(hash, genesis, old(receipts), event, subject, decision, policyId, inputsHash)
      ensures r.body.event == event && r.body.subject == subject && r.body.decision == decision
      ensures r.body.policyId == policyId && r.body.inputsHash == inputsHash && r.body.schema == "chain.receipt.v1"
      ensures r.body.previousHash
           == if old(receipts) == [] then genesis else old(receipts)[|old(receipts)| - 1].hash
      ensures r.hash == hash(r.body)
      ensures receipts == old(receipts) + [r]
      ensures Value() == old(Value()).Append(event, subject, decision, policyId, inputsHash)
      ensures old(Verifies(hash, genesis, receipts)) <==> Verifies(hash, genesis, receipts)
    {
      AppendVerifies(hash, genesis, receipts, event, subject, decision, policyId, inputsHash);
      var previous := HeadHash();
      var body := Canonical(SCHEMA, event, subject, decision, policyId, inputsHash, previous);
      var receiptHash := hash(body);
      var index := |receipts|;
      r := Receipt(ReceiptId(index, receiptHash), body, receiptHash, None);
      receipts := receipts + [r];
    }

    /** Reports the first receipt that is wrong, and what is wrong with it. */
    method Verify() returns (result: Result<(), ChainError>)
      ensures result.Ok? <==> Verifies(hash, genesis, receipts)
      ensures result.Err? ==>
        exists i | 0 <= i < |receipts| ::
          && ErrorAt(hash, genesis, receipts, i) == Some(result.error)
          && forall j | 0 <= j < i :: ErrorAt(hash, genesis, receipts, j) == None
    {
      var expectedPrev := genesis;
      for index := 0 to |receipts|
        invariant expectedPrev == Head(genesis, receipts[..index])
        invariant forall j | 0 <= j < index :: ErrorAt(hash, genesis, receipts, j) == None
      {
        var r := receipts[index];
        ghost var wrong := ErrorAt(hash, genesis, receipts, index);
        if r.body.schema != SCHEMA {
          return Err(BadSchema(index, SCHEMA, r.body.schema));
        }
        if r.body.previousHash != expectedPrev {
          return Err(BrokenLink(index, expectedPrev, r.body.previousHash));
        }
        var recomputed := hash(r.body);
        if recomputed != r.hash {
          return Err(HashMismatch(index, recomputed, r.hash));
        }
        assert wrong == None;
        expectedPrev := r.hash;
      }
      result := Ok(());
    }
  }
}
