/** No transfer, crash or scheduled purge loses an asset. */
module TransferSafety {
  import opened Basics
  import opened TransferModel
  import opened TransferInvariant
  import opened TransferSteps

  /** A system at rest: nothing in flight, no row on both sides, every vault row visible with a whole
      original, and a reachable copy of each asset in `kept` that no scheduled purge may select. */
  ghost predicate AtRest(s: System, kept: map<AssetId, Content>) {
    var d := s.disk;
    && s.pc.Idle? && s.purge.PurgeIdle?
    && d.mainJournal == map[] && d.vaultJournal == map[]
    && d.staged == map[] && d.dirs == {}
    && (forall a :: a in d.mainRows ==> a !in d.vaultRows)
    && (forall a :: a in d.vaultRows ==> !d.vaultRows[a].lifecycle.Purging? && Slot(a, Original) in d.blobs)
    && (forall slot :: slot in d.blobs ==>
          && slot.asset in d.vaultRows && d.blobs[slot].slot == slot
          && d.blobs[slot] in d.sealed && FileOk(d.sealed[d.blobs[slot]], d.blobs[slot], d.vaultRows[slot.asset].hash))
    && (forall a :: a in kept ==> HasCopy(d, a, kept[a]))
  }

  lemma AtRestInv(s: System, kept: map<AssetId, Content>)
    requires AtRest(s, kept)
    ensures Inv(s, Quiet, kept)
  {
  }

  lemma {:induction false} RunKeeps(s: System, run: seq<Action>, f: Flight, kept: map<AssetId, Content>) returns (g: Flight)
    requires Inv(s, f, kept) && Legal(s, run)
    ensures Inv(Final(s, run), g, kept)
    decreases |run|
  {
    if run == [] {
      g := f;
    } else {
      var h := StepKeeps(s, run[0], f, kept);
      g := RunKeeps(Apply(s, run[0]), run[1..], h, kept);
    }
  }

  lemma {:induction false} LegalPrefix(s: System, run: seq<Action>, k: nat)
    requires Legal(s, run) && k <= |run|
    ensures Legal(s, run[..k])
    decreases k
  {
    if k != 0 {
      LegalPrefix(Apply(s, run[0]), run[1..], k - 1);
      assert run[..k][1..] == run[1..][..k - 1];
    }
  }

  lemma {:induction false} LegalAppend(s: System, run: seq<Action>, a: Action)
    requires Legal(s, run) && Enabled(Final(s, run), a)
    ensures Legal(s, run + [a]) && Final(s, run + [a]) == Apply(Final(s, run), a)
    decreases |run|
  {
    if run == [] {
      assert [a][1..] == [];
    } else {
      LegalAppend(Apply(s, run[0]), run[1..], a);
      assert (run + [a])[1..] == run[1..] + [a];
    }
  }

  /** Safety over whole runs.  Actions are atomic, crashes and purge actions may stand anywhere in
      `run`, and the claim is made of the state after every prefix. */
  lemma NoLoss(s: System, run: seq<Action>, kept: map<AssetId, Content>)
    requires AtRest(s, kept) && Legal(s, run)
    ensures forall k :: 0 <= k <= |run| ==>
      Legal(s, run[..k]) && forall a :: a in kept ==> HasCopy(Final(s, run[..k]).disk, a, kept[a])
  {
    AtRestInv(s, kept);
    forall k | 0 <= k <= |run|
      ensures Legal(s, run[..k]) && forall a :: a in kept ==> HasCopy(Final(s, run[..k]).disk, a, kept[a])
    {
      LegalPrefix(s, run, k);
      var g := RunKeeps(s, run[..k], Quiet, kept);
      InvGivesCopies(Final(s, run[..k]), g, kept);
    }
  }

  /** A staged file that a committed blob row names is never swept: not by a roll-back, not by the
      clean-up of orphans at unlock, not at the end of a transfer. */
  lemma SweepSparesCommittedBlobs(s: System, run: seq<Action>, kept: map<AssetId, Content>, b: BlobId)
    requires AtRest(s, kept) && Legal(s, run) && ImportEnabled(Final(s, run), RemoveStaged(b))
    ensures !Published(Final(s, run).disk, b)
  {
    AtRestInv(s, kept);
    var g := RunKeeps(s, run, Quiet, kept);
    SweptFileIsUnpublished(Final(s, run), b, g, kept);
  }
}
