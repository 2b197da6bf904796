/**
 * Ideal cryptography as a term algebra. ML-KEM, AES-GCM-SIV and ML-DSA are library calls in the source;
 * here a secret, a sealed payload and a signature are the terms that produce them, so that opening and
 * verifying are term equality. A node identifier stands for the public key it is the hash of.
 */
module Crypto {
  import opened Wrappers

  type Node = nat

  type PathId = nat

  datatype Ciphertext = Encapsulated(kemKey: nat, seed: nat)

  /** Decapsulating with the wrong key gives a value unrelated to the sender's secret, not an error. */
  datatype Secret = Shared(kemKey: nat, seed: nat) | Rejected(kemKey: nat, ciphertext: Ciphertext)

  function Encapsulate(kemKey: nat, seed: nat): (Ciphertext, Secret) {
    (Encapsulated(kemKey, seed), Shared(kemKey, seed))
  }

  function Decapsulate(c: Ciphertext, kemKey: nat): Secret {
    if c.kemKey == kemKey then Shared(kemKey, c.seed) else Rejected(kemKey, c)
  }

  /** Whoever holds the key gets the sender's secret, nobody else does, and other secrets come of other draws. */
  lemma SecretsAreShared(kemKey: nat, seed: nat, other: nat, draw: nat)
    ensures var (c, secret) := Encapsulate(kemKey, seed);
            && (Decapsulate(c, other) == secret <==> other == kemKey)
            && (Encapsulate(other, draw).1 == secret <==> other == kemKey && draw == seed)
            && (other != kemKey ==> Decapsulate(c, other) != Encapsulate(other, draw).1)
  {
  }

  datatype Statement =
    | KemOffer(kemKey: nat)
    | FinalPath(finalPath: PathId, finalNode: Node)
    | EntryPoint(virtualNode: Node, finalPath: PathId, virtualSignature: Signature)
    | PublicRoute(finalNode: Node, nonce: nat)

  datatype Signature = Signed(signer: Node, statement: Statement)

  predicate Verifies(signature: Signature, signer: Node, statement: Statement) {
    signature == Signed(signer, statement)
  }

  datatype Purpose = ForValidate | ForOk

  datatype Body =
    | ValidateBody(virtualNode: Node, finalPath: PathId, finalNode: Node, expectedTtl: int, virtualSignature: Signature)
    | OkBody(virtualNode: Node, finalPath: PathId, virtualSignature: Signature, physicalSignature: Signature)

  datatype Sealed = Sealed(secret: Secret, purpose: Purpose, body: Body)

  function Open(s: Sealed, secret: Secret, purpose: Purpose): Option<Body> {
    if s.secret == secret && s.purpose == purpose then Some(s.body) else None
  }
}
