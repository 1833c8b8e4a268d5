/** The chain-ID calculator: the content-addressable key of a stack of layers,
    as defined in the OCI Image Format Specification (image configuration,
    section "Layer ChainID") and as the engine derives it on disk. SHA-256 is
    left uninterpreted: every member takes the hex digest as a parameter. */
module ChainId {

  /** The hex SHA-256 digest of a string; left abstract. */
  type Sha256 = string -> string

  /** `"sha256:" + hex digest`. */
  function Digest(sha256: Sha256, data: string): (r: string)
    ensures "sha256:" <= r && |r| >= 7
  {
    "sha256:" + sha256(data)
  }

  /** Recursive helper of the source: folds `dgsts` onto `parent`, where an
      empty parent adopts the next digest as it is. The result is the parent
      itself only when there is nothing to fold; otherwise it is one of the
      digests taken over unhashed, or a hash. */
  function CreateChainIdFromParent(sha256: Sha256, parent: string, dgsts: seq<string>): (r: string)
    ensures |dgsts| == 0 ==> r == parent
    ensures |dgsts| > 0 ==> r in dgsts || "sha256:" <= r
    decreases |dgsts|
  {
    if |dgsts| == 0 then parent
    else if parent == "" then CreateChainIdFromParent(sha256, dgsts[0], dgsts[1..])
    else CreateChainIdFromParent(sha256, Digest(sha256, parent + " " + dgsts[0]), dgsts[1..])
  }

  /** One step of the fold: what appending layer `d` does to chain id `acc`. */
  function Step(sha256: Sha256, acc: string, d: string): string
  {
    if acc == "" then d else Digest(sha256, acc + " " + d)
  }

  /** The chain id of a whole list of diff ids. */
  function CreateChainId(sha256: Sha256, diffIds: seq<string>): (r: string)
    ensures |diffIds| == 0 ==> r == ""
    ensures |diffIds| == 1 ==> r == diffIds[0]
  {
    assert |diffIds| == 1 ==>
      CreateChainIdFromParent(sha256, "", diffIds) == CreateChainIdFromParent(sha256, diffIds[0], []);
    CreateChainIdFromParent(sha256, "", diffIds)
  }

  /** A chain of two or more layers starting with a non-empty diff id is a
      digest. */
  lemma ChainIdIsDigest(sha256: Sha256, ds: seq<string>)
    requires |ds| >= 2 && ds[0] != ""
    ensures "sha256:" <= CreateChainId(sha256, ds)
  {
    assert ds[1..][1..] == ds[2..];
    assert CreateChainId(sha256, ds) == CreateChainIdFromParent(sha256, ds[0], ds[1..]);
    FromParentOfNonEmptyParent(sha256, Digest(sha256, ds[0] + " " + ds[1]), ds[2..]);
  }

  /** Once the accumulator holds a digest, every later step hashes again. */
  lemma {:induction false} FromParentOfNonEmptyParent(sha256: Sha256, parent: string, dgsts: seq<string>)
    requires "sha256:" <= parent
    ensures "sha256:" <= CreateChainIdFromParent(sha256, parent, dgsts)
    decreases |dgsts|
  {
    if |dgsts| > 0 {
      FromParentOfNonEmptyParent(sha256, Digest(sha256, parent + " " + dgsts[0]), dgsts[1..]);
    }
  }

  /** The recursion of the source is a left fold of `Step`: appending one
      digest to the list applies one more step to the result. */
  lemma {:induction false} FromParentSnoc(sha256: Sha256, parent: string, dgsts: seq<string>, d: string)
    ensures CreateChainIdFromParent(sha256, parent, dgsts + [d])
         == Step(sha256, CreateChainIdFromParent(sha256, parent, dgsts), d)
    decreases |dgsts|
  {
    if |dgsts| > 0 {
      assert (dgsts + [d])[1..] == dgsts[1..] + [d];
      var next := if parent == "" then dgsts[0] else Digest(sha256, parent + " " + dgsts[0]);
      FromParentSnoc(sha256, next, dgsts[1..], d);
    }
  }

  /** Appending a layer: `chain(ds + [d]) = H(chain(ds) + " " + d)` whenever
      `chain(ds)` is not empty, and `d` itself otherwise. */
  lemma ChainIdSnoc(sha256: Sha256, ds: seq<string>, d: string)
    ensures CreateChainId(sha256, ds + [d])
         == if CreateChainId(sha256, ds) == "" then d
            else Digest(sha256, CreateChainId(sha256, ds) + " " + d)
  {
    FromParentSnoc(sha256, "", ds, d);
  }

  /** The reference definition of a chain id over non-empty diff ids:
      chain([d]) = d and chain(ds + [d]) = H(chain(ds) + " " + d). */
  function ChainSpec(sha256: Sha256, ds: seq<string>): string
    decreases |ds|
  {
    if |ds| == 0 then ""
    else if |ds| == 1 then ds[0]
    else Digest(sha256, ChainSpec(sha256, ds[..|ds| - 1]) + " " + ds[|ds| - 1])
  }

  /** The source's fold computes the reference chain id for every list of
      non-empty diff ids. */
  lemma {:induction false} ChainIdMatchesSpec(sha256: Sha256, ds: seq<string>)
    requires forall i :: 0 <= i < |ds| ==> ds[i] != ""
    ensures CreateChainId(sha256, ds) == ChainSpec(sha256, ds)
    ensures |ds| > 0 ==> ChainSpec(sha256, ds) != ""
    decreases |ds|
  {
    if |ds| > 1 {
      var init, last := ds[..|ds| - 1], ds[|ds| - 1];
      assert ds == init + [last];
      ChainIdMatchesSpec(sha256, init);
      ChainIdSnoc(sha256, init, last);
    }
  }

  /** The chain id of every non-empty prefix of `diffIds`, oldest first. */
  function AllChainIds(sha256: Sha256, diffIds: seq<string>): (r: seq<string>)
    ensures |r| == |diffIds|
    ensures |diffIds| > 0 ==> r[0] == diffIds[0] && r[|r| - 1] == CreateChainId(sha256, diffIds)
  {
    assert |diffIds| > 0 ==> diffIds[..|diffIds|] == diffIds;
    seq(|diffIds|, i requires 0 <= i < |diffIds| => CreateChainId(sha256, diffIds[..i + 1]))
  }

  /** One turn of the source's loop: folding the next diff id onto the
      chain id of a prefix gives the chain id of the prefix one longer. */
  lemma NextChainId(sha256: Sha256, diffIds: seq<string>, i: nat, parent: string)
    requires i + 1 < |diffIds|
    requires parent == CreateChainId(sha256, diffIds[..i + 1])
    ensures CreateChainIdFromParent(sha256, parent, [diffIds[i + 1]]) == CreateChainId(sha256, diffIds[..i + 2])
  {
    FromParentSnoc(sha256, parent, [], diffIds[i + 1]);
    assert [] + [diffIds[i + 1]] == [diffIds[i + 1]];
    ChainIdSnoc(sha256, diffIds[..i + 1], diffIds[i + 1]);
    assert diffIds[..i + 1] + [diffIds[i + 1]] == diffIds[..i + 2];
  }

  /** Every prefix chain id, oldest first; the source's counted loop. The
      source needs at least one diff id (on none its loop produces garbage). */
  method GetAllChainIds(sha256: Sha256, diffIds: seq<string>) returns (chainIds: seq<string>)
    requires |diffIds| > 0
    ensures chainIds == AllChainIds(sha256, diffIds)
  {
    chainIds := [diffIds[0]];
    var i := 0;
    while i < |diffIds| - 1
      invariant 0 <= i < |diffIds|
      invariant |chainIds| == i + 1
      invariant forall k :: 0 <= k <= i ==> chainIds[k] == CreateChainId(sha256, diffIds[..k + 1])
    {
      NextChainId(sha256, diffIds, i, chainIds[i]);
      chainIds := chainIds + [CreateChainIdFromParent(sha256, chainIds[i], [diffIds[i + 1]])];
      i := i + 1;
    }
  }
}
