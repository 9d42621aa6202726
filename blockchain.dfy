/**
 * The hash-chained ledger of the blockchain demo: blocks that carry the
 * hash of their predecessor, a proof-of-work search over the nonce, an
 * append-only chain and its integrity check.
 *
 * SHA-256 with lower-case hex output is not modelled; it is the function
 * `sha256` that a chain is created with, and every statement below holds
 * for whichever function that is. The clock is the `now` parameter.
 */
module BlockchainDemo {
  import opened Numbers

  /** The difficulty target 0x1d00ffff; a mined hash must begin with its decimal text. */
  const DIFFICULTY: nat := 0x1d00ffff

  /** The previous-block hash given to the first (genesis) block. */
  const GENESIS_PREVIOUS_HASH: string := "0"

  /**
   * The text fed to the hash: index, previous hash, timestamp, data and
   * nonce, in that order, numbers in decimal, with no separators.
   */
  function HashInput(index: u32, previousBlockHash: string, timestamp: u64, data: string, nonce: u32): string
  {
    NatToString(index) + previousBlockHash + NatToString(timestamp) + data + NatToString(nonce)
  }

  /** The text `is_valid` compares against: `DIFFICULTY.to_string()`, proved equal below. */
  const DIFFICULTY_TEXT: string := "486604799"

  /** The proof-of-work test: the hash starts with the decimal text of `DIFFICULTY`. */
  predicate MeetsDifficulty(hash: string)
  {
    DIFFICULTY_TEXT <= hash
  }

  /** The difficulty prefix is the decimal text of `DIFFICULTY`, the nine characters "486604799". */
  lemma DifficultyText()
    ensures NatToString(DIFFICULTY) == DIFFICULTY_TEXT
  {
    assert NatToString(4) == "4";
    assert NatToString(48) == "48";
    assert NatToString(486) == "486";
    assert NatToString(4866) == "4866";
    assert NatToString(48660) == "48660";
    assert NatToString(486604) == "486604";
    assert NatToString(4866047) == "4866047";
    assert NatToString(48660479) == "48660479";
  }

  class Block {
    const index: u32
    const previousBlockHash: string
    const timestamp: u64
    const data: string
    var nonce: u32
    var hash: string

    /** A block not yet mined: nonce 0 and an empty hash. */
    constructor (index: u32, previousBlockHash: string, data: string, now: u64)
      ensures this.index == index && this.previousBlockHash == previousBlockHash
      ensures this.data == data && this.timestamp == now
      ensures nonce == 0 && hash == ""
    {
      this.index := index;
      this.previousBlockHash := previousBlockHash;
      this.timestamp := now;
      this.data := data;
      this.nonce := 0;
      this.hash := "";
    }

    /** The hash this block's content would have with nonce `n`. */
    function HashWithNonce(sha256: string -> string, n: u32): string
    {
      sha256(HashInput(index, previousBlockHash, timestamp, data, n))
    }

    function CalculateHash(sha256: string -> string): string
      reads this
    {
      HashWithNonce(sha256, nonce)
    }

    predicate IsValid()
      reads this
    {
      MeetsDifficulty(hash)
    }

    /**
     * Proof of work: from the current nonce upwards, store the hash and stop
     * at the first nonce whose hash meets the difficulty. The nonce is a
     * `u32`: when `u32::MAX` fails too, the source's `nonce += 1` overflows
     * (a panic in a debug build, a wrap to 0 and an endless search in a
     * release build); the model then stops with `found == false`.
     */
    method Mine(sha256: string -> string) returns (found: bool)
      modifies this`nonce, this`hash
      ensures hash == CalculateHash(sha256)
      ensures old(nonce) <= nonce
      ensures forall n: u32 | old(nonce) <= n < nonce :: !MeetsDifficulty(HashWithNonce(sha256, n))
      ensures found <==> IsValid()
      ensures !found ==> nonce == U32_MAX
      ensures MeetsDifficulty(HashWithNonce(sha256, old(nonce))) ==> found && nonce == old(nonce)
    {
      while true
        invariant old(nonce) <= nonce
        invariant forall n: u32 | old(nonce) <= n < nonce :: !MeetsDifficulty(HashWithNonce(sha256, n))
        decreases U32_MAX - nonce
      {
        hash := CalculateHash(sha256);
        if IsValid() {
          return true;
        }
        if nonce == U32_MAX {
          return false;
        }
        nonce := nonce + 1;
      }
    }
  }

  /** One link of the chain: `cur` names `prev`'s hash and its own hash is its content's. */
  predicate Linked(sha256: string -> string, prev: Block, cur: Block)
    reads prev, cur
  {
    cur.previousBlockHash == prev.hash && cur.hash == cur.CalculateHash(sha256)
  }

  /** What the integrity check accepts: every block after the first is linked to its predecessor. */
  predicate ChainLinked(sha256: string -> string, blocks: seq<Block>)
    reads blocks
  {
    forall i | 1 <= i < |blocks| :: Linked(sha256, blocks[i - 1], blocks[i])
  }

  /**
   * The check as the comment above `is_chain_valid` describes it, "every
   * block has the right hash and link": the links, and also the genesis
   * block's own hash.
   */
  predicate ChainSound(sha256: string -> string, blocks: seq<Block>)
    reads blocks
  {
    ChainLinked(sha256, blocks) && (|blocks| > 0 ==> blocks[0].hash == blocks[0].CalculateHash(sha256))
  }

  /** Under the corrected check every block, the first included, holds its recomputed hash. */
  lemma ChainSoundHashesAll(sha256: string -> string, blocks: seq<Block>)
    requires ChainSound(sha256, blocks)
    ensures forall i | 0 <= i < |blocks| :: blocks[i].hash == blocks[i].CalculateHash(sha256)
  {
    forall i | 1 <= i < |blocks| ensures blocks[i].hash == blocks[i].CalculateHash(sha256) {
      assert Linked(sha256, blocks[i - 1], blocks[i]);
    }
  }

  /**
   * The corrected check catches a genesis block whose data was changed
   * behind its stored hash: a replacement that keeps the hash, index,
   * previous hash, timestamp and nonce and still passes must hold the
   * original data (for a collision-free hash).
   */
  lemma GenesisTamperDetected(sha256: string -> string, blocks: seq<Block>, other: Block)
    requires Injective(sha256)
    requires |blocks| >= 1 && ChainSound(sha256, blocks)
    requires other.hash == blocks[0].hash && other.index == blocks[0].index
    requires other.previousBlockHash == blocks[0].previousBlockHash
    requires other.timestamp == blocks[0].timestamp && other.nonce == blocks[0].nonce
    requires ChainSound(sha256, [other] + blocks[1..])
    ensures other.data == blocks[0].data
  {
    var g := blocks[0];
    assert ([other] + blocks[1..])[0] == other;
    DataTamperDetected(sha256, g.index, g.previousBlockHash, g.timestamp, g.data, other.data, g.nonce);
  }

  /** Appending a block that names the last block's hash and holds its own recomputed hash keeps a chain linked and sound. */
  lemma AppendLinked(sha256: string -> string, blocks: seq<Block>, block: Block)
    requires blocks != [] ==> block.previousBlockHash == blocks[|blocks| - 1].hash
    requires block.hash == block.CalculateHash(sha256)
    ensures ChainLinked(sha256, blocks) ==> ChainLinked(sha256, blocks + [block])
    ensures ChainSound(sha256, blocks) ==> ChainSound(sha256, blocks + [block])
  {
    var longer := blocks + [block];
    if ChainLinked(sha256, blocks) {
      forall i | 1 <= i < |longer| ensures Linked(sha256, longer[i - 1], longer[i]) {
        if i < |blocks| {
          assert Linked(sha256, blocks[i - 1], blocks[i]);
        }
      }
    }
  }

  /** Block `i` sits at position `i`. */
  predicate Indexed(blocks: seq<Block>)
  {
    forall i | 0 <= i < |blocks| :: blocks[i].index == i
  }

  /**
   * The genesis block's content is never checked: a chain whose first block
   * is replaced by any block carrying the same hash is judged the same.
   */
  lemma GenesisNeverChecked(sha256: string -> string, blocks: seq<Block>, other: Block)
    requires |blocks| >= 1 && other.hash == blocks[0].hash
    ensures ChainLinked(sha256, blocks) == ChainLinked(sha256, [other] + blocks[1..])
  {
    var swapped := [other] + blocks[1..];
    if ChainLinked(sha256, blocks) {
      forall i | 1 <= i < |swapped| ensures Linked(sha256, swapped[i - 1], swapped[i]) {
        assert Linked(sha256, blocks[i - 1], blocks[i]);
      }
    }
    if ChainLinked(sha256, swapped) {
      forall i | 1 <= i < |blocks| ensures Linked(sha256, blocks[i - 1], blocks[i]) {
        assert Linked(sha256, swapped[i - 1], swapped[i]);
      }
    }
  }

  /** A chain of at most one block always passes. */
  lemma ShortChainsPass(sha256: string -> string, blocks: seq<Block>)
    requires |blocks| <= 1
    ensures ChainLinked(sha256, blocks)
  {
  }

  ghost predicate Injective(f: string -> string)
  {
    forall a, b :: f(a) == f(b) ==> a == b
  }

  /**
   * Tamper evidence for the data: with a collision-free hash, a block whose
   * recomputed hash equals the hash of the original content still holds the
   * original data.
   */
  lemma DataTamperDetected(sha256: string -> string, index: u32, prev: string, timestamp: u64, data: string, data': string, nonce: u32)
    requires Injective(sha256)
    requires sha256(HashInput(index, prev, timestamp, data', nonce)) == sha256(HashInput(index, prev, timestamp, data, nonce))
    ensures data' == data
  {
    var a, b := NatToString(index) + prev + NatToString(timestamp), NatToString(nonce);
    var x, y := HashInput(index, prev, timestamp, data, nonce), HashInput(index, prev, timestamp, data', nonce);
    assert x == y;
    assert x == a + data + b;
    assert y == a + data' + b;
    assert x[|a|..|a| + |data|] == data;
    assert y[|a|..|a| + |data'|] == data';
  }

  /** Tamper evidence for the nonce. */
  lemma NonceTamperDetected(sha256: string -> string, index: u32, prev: string, timestamp: u64, data: string, nonce: u32, nonce': u32)
    requires Injective(sha256)
    requires sha256(HashInput(index, prev, timestamp, data, nonce')) == sha256(HashInput(index, prev, timestamp, data, nonce))
    ensures nonce' == nonce
  {
    var a := NatToString(index) + prev + NatToString(timestamp) + data;
    var x, y := HashInput(index, prev, timestamp, data, nonce), HashInput(index, prev, timestamp, data, nonce');
    assert x == y;
    assert x[|a|..] == NatToString(nonce);
    assert y[|a|..] == NatToString(nonce');
    NatToStringInjective(nonce, nonce');
  }

  /** Tamper evidence for the previous-block hash. */
  lemma PreviousHashTamperDetected(sha256: string -> string, index: u32, prev: string, prev': string, timestamp: u64, data: string, nonce: u32)
    requires Injective(sha256)
    requires sha256(HashInput(index, prev', timestamp, data, nonce)) == sha256(HashInput(index, prev, timestamp, data, nonce))
    ensures prev' == prev
  {
    var a, b := NatToString(index), NatToString(timestamp) + data + NatToString(nonce);
    var x, y := HashInput(index, prev, timestamp, data, nonce), HashInput(index, prev', timestamp, data, nonce);
    assert x == y;
    assert x == a + prev + b;
    assert y == a + prev' + b;
    assert x[|a|..|a| + |prev|] == prev;
    assert y[|a|..|a| + |prev'|] == prev';
  }

  /** Tamper evidence for the timestamp. */
  lemma TimestampTamperDetected(sha256: string -> string, index: u32, prev: string, timestamp: u64, timestamp': u64, data: string, nonce: u32)
    requires Injective(sha256)
    requires sha256(HashInput(index, prev, timestamp', data, nonce)) == sha256(HashInput(index, prev, timestamp, data, nonce))
    ensures timestamp' == timestamp
  {
    var a, b := NatToString(index) + prev, data + NatToString(nonce);
    var t, t' := NatToString(timestamp), NatToString(timestamp');
    var x, y := HashInput(index, prev, timestamp, data, nonce), HashInput(index, prev, timestamp', data, nonce);
    assert x == y;
    assert x == a + t + b;
    assert y == a + t' + b;
    assert x[|a|..|a| + |t|] == t;
    assert y[|a|..|a| + |t'|] == t';
    NatToStringInjective(timestamp, timestamp');
  }

  /**
   * The check as written catches a block after the first whose data was
   * changed behind its stored hash: a replacement at position `i >= 1`
   * that keeps the stored hash and every other field and still passes must
   * hold the original data (for a collision-free hash).
   */
  lemma LaterDataTamperDetected(sha256: string -> string, blocks: seq<Block>, i: nat, other: Block)
    requires Injective(sha256)
    requires 1 <= i < |blocks| && ChainLinked(sha256, blocks)
    requires other.hash == blocks[i].hash && other.index == blocks[i].index
    requires other.previousBlockHash == blocks[i].previousBlockHash
    requires other.timestamp == blocks[i].timestamp && other.nonce == blocks[i].nonce
    requires ChainLinked(sha256, blocks[i := other])
    ensures other.data == blocks[i].data
  {
    var b := blocks[i];
    assert Linked(sha256, blocks[i - 1], b);
    assert Linked(sha256, blocks[i := other][i - 1], blocks[i := other][i]);
    DataTamperDetected(sha256, b.index, b.previousBlockHash, b.timestamp, b.data, other.data, b.nonce);
  }

  /** The same for a changed nonce at position `i >= 1`. */
  lemma LaterNonceTamperDetected(sha256: string -> string, blocks: seq<Block>, i: nat, other: Block)
    requires Injective(sha256)
    requires 1 <= i < |blocks| && ChainLinked(sha256, blocks)
    requires other.hash == blocks[i].hash && other.index == blocks[i].index
    requires other.previousBlockHash == blocks[i].previousBlockHash
    requires other.timestamp == blocks[i].timestamp && other.data == blocks[i].data
    requires ChainLinked(sha256, blocks[i := other])
    ensures other.nonce == blocks[i].nonce
  {
    var b := blocks[i];
    assert Linked(sha256, blocks[i - 1], b);
    assert Linked(sha256, blocks[i := other][i - 1], blocks[i := other][i]);
    NonceTamperDetected(sha256, b.index, b.previousBlockHash, b.timestamp, b.data, b.nonce, other.nonce);
  }

  /** The same for a changed timestamp at position `i >= 1`. */
  lemma LaterTimestampTamperDetected(sha256: string -> string, blocks: seq<Block>, i: nat, other: Block)
    requires Injective(sha256)
    requires 1 <= i < |blocks| && ChainLinked(sha256, blocks)
    requires other.hash == blocks[i].hash && other.index == blocks[i].index
    requires other.previousBlockHash == blocks[i].previousBlockHash
    requires other.data == blocks[i].data && other.nonce == blocks[i].nonce
    requires ChainLinked(sha256, blocks[i := other])
    ensures other.timestamp == blocks[i].timestamp
  {
    var b := blocks[i];
    assert Linked(sha256, blocks[i - 1], b);
    assert Linked(sha256, blocks[i := other][i - 1], blocks[i := other][i]);
    TimestampTamperDetected(sha256, b.index, b.previousBlockHash, b.timestamp, other.timestamp, b.data, b.nonce);
  }

  /**
   * A block after the first cannot name another predecessor: a replacement
   * at position `i >= 1` that still passes names the same previous hash.
   * The link check alone decides this, whatever the hash function.
   */
  lemma LaterPreviousHashTamperDetected(sha256: string -> string, blocks: seq<Block>, i: nat, other: Block)
    requires 1 <= i < |blocks| && ChainLinked(sha256, blocks)
    requires ChainLinked(sha256, blocks[i := other])
    ensures other.previousBlockHash == blocks[i].previousBlockHash
  {
    assert Linked(sha256, blocks[i - 1], blocks[i]);
    assert Linked(sha256, blocks[i := other][i - 1], blocks[i := other][i]);
  }

  /**
   * The fields are not self-delimiting: block 1 after a hash "23…" and
   * block 12 after a hash "3…" feed the same text to the hash.
   */
  lemma FieldsNotSelfDelimiting(timestamp: u64, data: string, nonce: u32)
    ensures HashInput(1, "23", timestamp, data, nonce) == HashInput(12, "3", timestamp, data, nonce)
  {
    assert NatToString(1) == "1";
    assert NatToString(12) == "12";
  }

  /** `Block::new` followed by `mine`, on a block nothing else refers to yet. */
  method MinedBlock(sha256: string -> string, index: u32, previousBlockHash: string, data: string, now: u64)
    returns (block: Block, mined: bool)
    ensures fresh(block)
    ensures block.index == index && block.previousBlockHash == previousBlockHash
    ensures block.data == data && block.timestamp == now
    ensures mined ==> block.hash == block.CalculateHash(sha256) && block.IsValid()
  {
    block := new Block(index, previousBlockHash, data, now);
    mined := block.Mine(sha256);
  }

  /**
   * The nonce space can run out: mining a block for which no `u32` nonce
   * gives a hash with the difficulty prefix (here under a digest that is
   * always empty) fails at every nonce up to `u32::MAX`, which is where the
   * source's `nonce += 1` overflows.
   */
  method MiningExhausted() returns (found: bool, lastNonce: u32, hash: string)
    ensures !found && lastNonce == U32_MAX && !MeetsDifficulty(hash)
  {
    var emptyDigest := (input: string) => "";
    var block := new Block(0, GENESIS_PREVIOUS_HASH, "", 0);
    found := block.Mine(emptyDigest);
    lastNonce, hash := block.nonce, block.hash;
  }

  class Blockchain {
    const sha256: string -> string
    var blocks: seq<Block>

    /** An empty chain; there is no genesis block until the first `AddBlock`. */
    constructor (sha256: string -> string)
      ensures this.sha256 == sha256 && blocks == []
      ensures ChainLinked(sha256, blocks) && Indexed(blocks)
    {
      this.sha256 := sha256;
      blocks := [];
    }

    /**
     * Appends a block holding `data`, linked to the last block's hash (or to
     * "0" when the chain is empty), after mining it. `mined == false` stands
     * for the source's nonce overflow, after which nothing is appended.
     */
    method AddBlock(data: string, now: u64) returns (mined: bool)
      requires |blocks| <= U32_MAX
      modifies this`blocks
      ensures !mined ==> blocks == old(blocks)
      ensures mined ==> |blocks| == |old(blocks)| + 1 && blocks[..|old(blocks)|] == old(blocks)
      ensures mined ==> fresh(blocks[|blocks| - 1])
      ensures mined ==> blocks[|blocks| - 1].index == |old(blocks)|
      ensures mined ==> blocks[|blocks| - 1].previousBlockHash
                        == if old(blocks) == [] then GENESIS_PREVIOUS_HASH else old(blocks[|blocks| - 1].hash)
      ensures mined ==> blocks[|blocks| - 1].data == data && blocks[|blocks| - 1].timestamp == now
      ensures mined ==> blocks[|blocks| - 1].hash == blocks[|blocks| - 1].CalculateHash(sha256)
      ensures mined ==> blocks[|blocks| - 1].IsValid()
      ensures old(ChainLinked(sha256, blocks)) ==> ChainLinked(sha256, blocks)
      ensures old(ChainSound(sha256, blocks)) ==> ChainSound(sha256, blocks)
      ensures Indexed(old(blocks)) ==> Indexed(blocks)
    {
      var index: u32 := |blocks|;
      var previousBlockHash := if index == 0 then GENESIS_PREVIOUS_HASH else blocks[index - 1].hash;
      var block;
      block, mined := MinedBlock(sha256, index, previousBlockHash, data, now);
      if mined {
        AppendLinked(sha256, blocks, block);
        blocks := blocks + [block];
      }
    }

    /** The integrity check: false at the first broken link or stale hash. */
    method IsChainValid() returns (ok: bool)
      ensures ok <==> ChainLinked(sha256, blocks)
    {
      var i := 1;
      while i < |blocks|
        invariant 1 <= i <= |blocks| || (|blocks| == 0 && i == 1)
        invariant forall j | 1 <= j < i :: Linked(sha256, blocks[j - 1], blocks[j])
      {
        if blocks[i].previousBlockHash != blocks[i - 1].hash {
          return false;
        }
        if blocks[i].hash != blocks[i].CalculateHash(sha256) {
          return false;
        }
        i := i + 1;
      }
      return true;
    }

    /** The corrected integrity check: the genesis block's hash as well as every link. */
    method IsChainSound() returns (ok: bool)
      ensures ok <==> ChainSound(sha256, blocks)
    {
      if |blocks| > 0 && blocks[0].hash != blocks[0].CalculateHash(sha256) {
        return false;
      }
      ok := IsChainValid();
    }
  }

  /** Block i holds payload i and clock reading i, and there is one block per payload. */
  predicate Carries(blocks: seq<Block>, payloads: seq<string>, clock: seq<u64>)
  {
    |blocks| == |payloads| == |clock| &&
    forall i | 0 <= i < |blocks| :: blocks[i].data == payloads[i] && blocks[i].timestamp == clock[i]
  }

  /** One append keeps block i holding payload i and clock reading i. */
  lemma CarriesStep(before: seq<Block>, after: seq<Block>, payloads: seq<string>, clock: seq<u64>, k: nat)
    requires k < |payloads| == |clock| && Carries(before, payloads[..k], clock[..k])
    requires |after| == |before| + 1 && after[..|before|] == before
    requires after[|before|].data == payloads[k] && after[|before|].timestamp == clock[k]
    ensures Carries(after, payloads[..k + 1], clock[..k + 1])
  {
    forall i | 0 <= i < |after| ensures after[i].data == payloads[i] && after[i].timestamp == clock[i] {
      if i < |before| {
        assert after[i] == before[i];
      }
    }
  }

  /**
   * A chain made by the constructor and `AddBlock` alone: each payload in
   * turn is appended with its clock reading, and both the integrity check
   * and the corrected one pass on the result, whose blocks sit at their own
   * index and whose first block names "0". When every append mined its
   * block (`allMined`), block i holds payload i and clock reading i.
   */
  method BuildChain(sha256: string -> string, payloads: seq<string>, clock: seq<u64>)
    returns (chain: Blockchain, allMined: bool, valid: bool, sound: bool)
    requires |payloads| == |clock| <= U32_MAX + 1
    ensures fresh(chain) && chain.sha256 == sha256
    ensures |chain.blocks| <= |payloads| && Indexed(chain.blocks)
    ensures |chain.blocks| > 0 ==> chain.blocks[0].previousBlockHash == GENESIS_PREVIOUS_HASH
    ensures allMined ==> |chain.blocks| == |payloads|
    ensures allMined ==> forall i | 0 <= i < |payloads| ::
              chain.blocks[i].data == payloads[i] && chain.blocks[i].timestamp == clock[i]
    ensures valid && sound
  {
    chain := new Blockchain(sha256);
    allMined := true;
    var k := 0;
    while k < |payloads|
      invariant 0 <= k <= |payloads|
      invariant fresh(chain) && chain.sha256 == sha256
      invariant |chain.blocks| <= k
      invariant ChainSound(sha256, chain.blocks) && Indexed(chain.blocks)
      invariant |chain.blocks| > 0 ==> chain.blocks[0].previousBlockHash == GENESIS_PREVIOUS_HASH
      invariant allMined ==> Carries(chain.blocks, payloads[..k], clock[..k])
    {
      ghost var before := chain.blocks;
      var mined := chain.AddBlock(payloads[k], clock[k]);
      if mined && allMined {
        CarriesStep(before, chain.blocks, payloads, clock, k);
      }
      allMined := allMined && mined;
      k := k + 1;
    }
    assert payloads[..k] == payloads && clock[..k] == clock;
    valid := chain.IsChainValid();
    sound := chain.IsChainSound();
  }
}
