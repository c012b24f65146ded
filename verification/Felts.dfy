/** The field elements and curve points that every part of zkAPI v2 hashes and
    compares.

    Poseidon is ideal here: each domain-separated use of it is a constructor, so two
    digests are equal exactly when the tag and all the inputs are. Small numbers and
    free field elements are `Num`. */
module Felts {

  /** Order of the prime subgroup of Baby Jubjub: the scalar field of the commitments. */
  const ORDER: nat := 2736030358979909402780800718157159386076813972158567259200215660948447373041

  /** The field of the circuits and of the hashes: the scalar field of BN254. */
  const FIELD_MODULUS: nat := 21888242871839275222246405745257275088548364400416034343698204186575808495617

  const U64: nat := 0x1_0000_0000_0000_0000
  const U128: nat := 0x1_0000_0000_0000_0000_0000_0000_0000_0000

  type Scalar = k: nat | k < ORDER

  /** A point of the prime subgroup, written over three generators between which no
      relation is known: g*G + h*H + j*J. */
  datatype Point = Point(g: Scalar, h: Scalar, j: Scalar)

  datatype Felt =
    | Num(value: nat)
    | Registration(secret: Felt)
    | Leaf(noteId: nat, registration: Felt, amount: nat, expiry: nat)
    | Node(left: Felt, right: Felt)
    | Nullifier(owner: Felt, anchor: Felt)
    | Authorization(of: Felt, context: Felt)
    | StateMessage(stateOf: Deployment, commitment: Point, stateAnchor: Felt)
    | ClearanceMessage(clearanceOf: Deployment, cleared: Felt)
    | WithdrawalTag(spent: Felt, destination: nat, finalBalance: nat, hasClearance: bool)
    | NextAnchor(randomness: Felt, consumed: Felt, updated: Point)
    | PayloadHash(payload: string)
    | ResponseHash(response: string)
    | RequestContext(requestId: string, payloadHash: Felt)

  /** What binds a message to one deployment of the protocol. */
  datatype Deployment = Deployment(protocolVersion: nat, chainId: nat, contractAddress: nat)

  /** A public key by its two coordinates. */
  datatype Key = Key(x: nat, y: nat)

  const ZERO: Felt := Num(0)
  const GENESIS_ANCHOR: Felt := Num(1)

  /** A raw 256-bit calldata word: a residue and how often the modulus was added to it.
      Poseidon on chain absorbs words with `addmod`, so only the residue is hashed. */
  datatype Word = Word(residue: Felt, wraps: nat)

  function Residues(words: seq<Word>): (r: seq<Felt>)
    ensures |r| == |words| && forall k :: 0 <= k < |r| ==> r[k] == words[k].residue
  {
    seq(|words|, k requires 0 <= k < |words| => words[k].residue)
  }
}
