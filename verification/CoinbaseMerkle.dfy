/** The Merkle path of a block template's coinbase, and replacing the coinbase.
    Transaction ids and the pair hash are parameters. */
module CoinbaseMerkle {
  import opened Arithmetic
  import opened Bits

  type Digest = seq<byte>
  type Transaction = seq<byte>
  type PairHash = (Digest, Digest) -> Digest

  // ----- The tree -----

  /** Hash neighbours in pairs; an odd last node is paired with itself. */
  function NextLayer(layer: seq<Digest>, h: PairHash): (next: seq<Digest>)
    ensures |next| == (|layer| + 1) / 2
  {
    seq((|layer| + 1) / 2, i requires 0 <= i < (|layer| + 1) / 2 =>
      h(layer[2 * i], if 2 * i + 1 < |layer| then layer[2 * i + 1] else layer[2 * i]))
  }

  function Root(layer: seq<Digest>, h: PairHash): Digest
    requires layer != []
    decreases |layer|
  {
    if |layer| == 1 then layer[0] else Root(NextLayer(layer, h), h)
  }

  /** A layer with an odd last node has the root of the layer with that node twice. */
  lemma OddLastTwice(layer: seq<Digest>, h: PairHash)
    requires |layer| > 1 && |layer| % 2 == 1
    ensures Root(layer + [layer[|layer| - 1]], h) == Root(layer, h)
  {
    hide NextLayer;
    NextLayerDoubled(layer, h);
  }

  lemma NextLayerDoubled(layer: seq<Digest>, h: PairHash)
    requires |layer| % 2 == 1
    ensures NextLayer(layer + [layer[|layer| - 1]], h) == NextLayer(layer, h)
  {
    var doubled := layer + [layer[|layer| - 1]];
    var n := |layer| / 2;
    forall i | 0 <= i <= n ensures NextLayer(doubled, h)[i] == NextLayer(layer, h)[i] {
      assert doubled[2 * i] == layer[2 * i];
      if i < n {
        assert doubled[2 * i + 1] == layer[2 * i + 1];
      } else {
        assert doubled[2 * i + 1] == layer[2 * n];
      }
    }
  }

  /** One node is its own root, and two full halves of a tree hash to its root. */
  lemma {:induction false} RootOfHalves(a: seq<Digest>, b: seq<Digest>, k: nat, h: PairHash)
    requires |a| == |b| == Pow2(k)
    ensures Root(a + b, h) == h(Root(a, h), Root(b, h))
    ensures k == 0 ==> Root(a, h) == a[0] && Root(b, h) == b[0]
    decreases k
  {
    if k == 0 {
      assert a + b == [a[0], b[0]];
      assert NextLayer(a + b, h) == [h(a[0], b[0])];
    } else {
      NextLayerOfHalves(a, b, Pow2(k - 1), h);
      RootOfHalves(NextLayer(a, h), NextLayer(b, h), k - 1, h);
      BigEnough(k);
    }
  }

  lemma BigEnough(k: nat)
    requires k > 0
    ensures Pow2(k) >= 2 && Pow2(k) % 2 == 0
  {
  }

  lemma NodeIs(layer: seq<Digest>, i: nat, h: PairHash)
    requires 2 * i < |layer|
    ensures NextLayer(layer, h)[i] == h(layer[2 * i], if 2 * i + 1 < |layer| then layer[2 * i + 1] else layer[2 * i])
  {
  }

  lemma PairsOf(layer: seq<Digest>, h: PairHash)
    ensures var next := NextLayer(layer, h);
      && (forall i :: 0 <= 2 * i + 1 < |layer| ==> i < |next| && next[i] == h(layer[2 * i], layer[2 * i + 1]))
      && (|layer| % 2 == 1 ==> next[|next| - 1] == h(layer[|layer| - 1], layer[|layer| - 1]))
  {
    hide NextLayer;
    forall i | 0 <= 2 * i + 1 < |layer|
      ensures i < |NextLayer(layer, h)| && NextLayer(layer, h)[i] == h(layer[2 * i], layer[2 * i + 1])
    {
      NodeIs(layer, i, h);
    }
    if |layer| % 2 == 1 {
      NodeIs(layer, |layer| / 2, h);
    }
  }

  /** Nodes over the same pair are the same. */
  lemma NodeOf(layer: seq<Digest>, i: nat, other: seq<Digest>, j: nat, h: PairHash)
    requires 2 * i < |layer| && 2 * j < |other| && layer[2 * i] == other[2 * j]
    requires 2 * i + 1 < |layer| <==> 2 * j + 1 < |other|
    requires 2 * i + 1 < |layer| ==> layer[2 * i + 1] == other[2 * j + 1]
    ensures NextLayer(layer, h)[i] == NextLayer(other, h)[j]
  {
  }

  lemma NextLayerOfHalves(a: seq<Digest>, b: seq<Digest>, n: nat, h: PairHash)
    requires |a| == 2 * n
    ensures NextLayer(a + b, h) == NextLayer(a, h) + NextLayer(b, h)
  {
    var whole, parts := NextLayer(a + b, h), NextLayer(a, h) + NextLayer(b, h);
    hide NextLayer;
    assert |whole| == n + (|b| + 1) / 2;
    forall i | 0 <= i < |whole| ensures whole[i] == parts[i] {
      if i < n {
        NodeOf(a + b, i, a, i, h);
      } else {
        NodeOf(a + b, i, b, i - n, h);
      }
    }
  }

  /** What a miner computes from a coinbase id and a path, the id always on the left. */
  function Fold(leaf: Digest, path: seq<Digest>, h: PairHash): Digest {
    if path == [] then leaf else h(Fold(leaf, path[..|path| - 1], h), path[|path| - 1])
  }

  /** Replacing the first leaf only changes the first node of every layer. */
  lemma NextLayerReplaced(layer: seq<Digest>, x: Digest, h: PairHash)
    requires |layer| > 1
    ensures NextLayer(layer[0 := x], h) == NextLayer(layer, h)[0 := h(x, layer[1])]
  {
  }

  /** The path authenticates any coinbase: it rebuilds the root of the block with that coinbase. */
  ghost predicate Authenticates(path: seq<Digest>, txids: seq<Digest>, h: PairHash)
    requires txids != []
  {
    forall c: Digest :: Fold(c, path, h) == Root(txids[0 := c], h)
  }

  // ----- The path -----

  method HashPairs(layer: seq<Digest>, h: PairHash) returns (next: seq<Digest>)
    ensures next == NextLayer(layer, h)
    ensures forall i :: 0 <= 2 * i + 1 < |layer| ==> i < |next| && next[i] == h(layer[2 * i], layer[2 * i + 1])
    ensures |layer| % 2 == 1 ==> next[|next| - 1] == h(layer[|layer| - 1], layer[|layer| - 1])
  {
    hide NextLayer;
    next := [];
    var i := 0;
    while i < |layer|
      invariant i == 2 * |next| && |next| <= (|layer| + 1) / 2
      invariant next == NextLayer(layer, h)[..|next|]
    {
      NodeIs(layer, |next|, h);
      var right := if i + 1 < |layer| then layer[i + 1] else layer[i];
      next := next + [h(layer[i], right)];
      i := i + 2;
    }
    PairsOf(layer, h);
  }

  /** `index ^ 1` */
  function Sibling(index: nat): nat { if index % 2 == 0 then index + 1 else index - 1 }

  method CoinbaseMerklePath(txids: seq<Digest>, h: PairHash) returns (path: seq<Digest>)
    ensures txids != [] ==> Authenticates(path, txids, h)
    ensures txids != [] ==> |txids| <= Pow2(|path|)
    ensures |txids| > 1 ==> path != [] && Pow2(|path| - 1) < |txids|
    ensures |txids| <= 1 ==> path == []
  {
    hide NextLayer;
    var layer := txids;
    var index := 0;
    path := [];
    ghost var spread := 1;
    if txids != [] { StartAuthenticates(txids, h); }
    while |layer| > 1
      invariant index == 0
      invariant txids != [] ==> layer != []
      invariant txids != [] ==> forall c: Digest :: Root(txids[0 := c], h) == Root(layer[0 := Fold(c, path, h)], h)
      invariant spread == Pow2(|path|) && |txids| <= |layer| * spread
      invariant |layer| > 1 ==> (|layer| - 1) * spread < |txids|
      invariant path != [] ==> Pow2(|path| - 1) < |txids|
      invariant |txids| <= 1 ==> path == [] && layer == txids
      decreases |layer|
    {
      var sibling := if Sibling(index) < |layer| then Sibling(index) else index;
      ghost var before := path;
      path := path + [layer[sibling]];
      assert path[..|path| - 1] == before;
      var next := HashPairs(layer, h);
      forall c: Digest ensures Root(txids[0 := c], h) == Root(next[0 := Fold(c, path, h)], h) {
        NextLayerReplaced(layer, Fold(c, before, h), h);
      }
      SpreadStep(|layer|, |next|, spread, |txids|);
      layer := next;
      index := index / 2;
      spread := 2 * spread;
    }
    if txids != [] {
      forall c: Digest ensures Fold(c, path, h) == Root(txids[0 := c], h) {
        assert Root(layer[0 := Fold(c, path, h)], h) == Fold(c, path, h);
      }
    }
  }

  lemma StartAuthenticates(txids: seq<Digest>, h: PairHash)
    requires txids != []
    ensures forall c: Digest :: Root(txids[0 := c], h) == Root(txids[0 := Fold(c, [], h)], h)
  {
  }

  /** Halving a layer doubles what each of its nodes stands for. */
  lemma SpreadStep(layer: nat, next: nat, spread: nat, leaves: nat)
    requires layer > 1 && next == (layer + 1) / 2 && spread >= 1
    requires leaves <= layer * spread && (layer - 1) * spread < leaves
    ensures leaves <= next * (2 * spread)
    ensures next > 1 ==> (next - 1) * (2 * spread) < leaves
    ensures spread < leaves
  {
    MulOrder(layer, 2 * next, spread);
    assert (2 * next) * spread == next * (2 * spread);
    MulOrder(2 * (next - 1), layer - 1, spread);
    assert (2 * (next - 1)) * spread == (next - 1) * (2 * spread);
    MulOrder(1, layer - 1, spread);
  }

  /** With a collision-free pair hash, one path authenticates one coinbase per root. */
  lemma {:induction false} FoldInjective(c: Digest, d: Digest, path: seq<Digest>, h: PairHash)
    requires forall x, y, z :: h(x, z) == h(y, z) ==> x == y
    requires Fold(c, path, h) == Fold(d, path, h)
    ensures c == d
  {
    if path != [] {
      FoldInjective(c, d, path[..|path| - 1], h);
    }
  }

  /** The path does not depend on the coinbase. */
  lemma AuthenticatesReplaced(path: seq<Digest>, txids: seq<Digest>, coinbase: Digest, h: PairHash)
    requires txids != [] && Authenticates(path, txids, h)
    ensures Authenticates(path, txids[0 := coinbase], h)
  {
    forall c: Digest ensures Fold(c, path, h) == Root(txids[0 := coinbase][0 := c], h) {
      assert txids[0 := coinbase][0 := c] == txids[0 := c];
    }
  }

  // ----- The template -----

  datatype Header = Header(version: int, previous: Digest, merkleRoot: Digest, time: nat, bits: nat, nonce: nat)

  function IdsOf(txdata: seq<Transaction>, txid: Transaction -> Digest): (ids: seq<Digest>)
    ensures |ids| == |txdata|
  {
    seq(|txdata|, i requires 0 <= i < |txdata| => txid(txdata[i]))
  }

  lemma IdsReplaced(txdata: seq<Transaction>, coinbase: Transaction, txid: Transaction -> Digest)
    requires txdata != []
    ensures IdsOf(txdata[0 := coinbase], txid) == IdsOf(txdata, txid)[0 := txid(coinbase)]
  {
  }

  class BlockTemplate {
    var header: Header
    var txdata: seq<Transaction>
    const txid: Transaction -> Digest
    const pairHash: PairHash

    function Txids(): (ids: seq<Digest>)
      reads this
      ensures |ids| == |txdata|
    {
      IdsOf(txdata, txid)
    }

    constructor (header: Header, txdata: seq<Transaction>, txid: Transaction -> Digest, pairHash: PairHash)
      ensures this.header == header && this.txdata == txdata && this.txid == txid && this.pairHash == pairHash
    {
      this.header := header;
      this.txdata := txdata;
      this.txid := txid;
      this.pairHash := pairHash;
    }

    /** The solved block replaces the stored one, on the same parent and target; a path handed out before still
        rebuilds the new Merkle root from the new coinbase. */
    method SubmitSolution(version: int, timestamp: nat, nonce: nat, coinbase: Transaction, ghost path: seq<Digest>)
      returns (ok: bool)
      requires txdata != [] ==> Authenticates(path, Txids(), pairHash)
      modifies this
      ensures ok <==> old(txdata) != []
      ensures !ok ==> header == old(header) && txdata == old(txdata)
      ensures ok ==> txdata == old(txdata)[0 := coinbase]
      ensures ok ==>
        header == Header(version, old(header.previous), Fold(txid(coinbase), path, pairHash),
                         timestamp, old(header.bits), nonce)
      ensures ok ==> header.merkleRoot == Root(Txids(), pairHash) && Authenticates(path, Txids(), pairHash)
    {
      hide Root, Fold, IdsOf;
      if txdata == [] {
        return false;
      }
      ghost var before := Txids();
      IdsReplaced(txdata, coinbase, txid);
      txdata := txdata[0 := coinbase];
      AuthenticatesReplaced(path, before, txid(coinbase), pairHash);
      header := header.(version := version, time := timestamp, nonce := nonce);
      header := header.(merkleRoot := Root(Txids(), pairHash));
      return true;
    }
  }
}
