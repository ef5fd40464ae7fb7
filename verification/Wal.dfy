/** The write-ahead log: a fixed circular file of entries. */
module WalModel {
  import opened Types
  import opened Modulo

  /** An entry of a file that was never written: all bytes zero. */
  const ZERO_ENTRY := WalEntry(0, 0, 0, 0, 0, 0, 0, 0)

  /** The ring holds the most recent entries, each at its position modulo the ring size; the rest is still zero. */
  ghost predicate Ring(base: seq<WalEntry>, log: seq<WalEntry>) {
    && |base| > 0
    && (forall j :: 0 <= j < |log| && |log| <= j + |base| ==> base[j % |base|] == log[j])
    && (forall i :: |log| <= i < |base| ==> base[i] == ZERO_ENTRY)
  }

  /** Before the ring wraps, the file is the log followed by zero entries. */
  lemma RingUnwrapped(base: seq<WalEntry>, log: seq<WalEntry>)
    requires Ring(base, log) && |log| <= |base|
    ensures base == log + seq(|base| - |log|, i => ZERO_ENTRY)
  {
    forall i | 0 <= i < |log| ensures base[i] == log[i] {
      ModSmall(i, |base|);
    }
  }

  lemma RingAppend(base: seq<WalEntry>, log: seq<WalEntry>, e: WalEntry)
    requires Ring(base, log)
    ensures Ring(base[|log| % |base| := e], log + [e])
  {
    var n := |base|;
    var base', log' := base[|log| % n := e], log + [e];
    forall j | 0 <= j < |log'| && |log'| <= j + n ensures base'[j % n] == log'[j] {
      if j < |log| {
        DistinctResidues(j, |log|, n);
      }
    }
    forall i | |log'| <= i < n ensures base'[i] == ZERO_ENTRY {
      ModSmall(|log|, n);
    }
  }

  class WalWriter {
    const base: array<WalEntry>
    var total: nat
    ghost var log: seq<WalEntry>

    ghost predicate Valid()
      reads this, base
    {
      Ring(base[..], log) && total == |log|
    }

    /** Open an empty log file of n entries. */
    constructor (n: nat)
      requires n > 0
      ensures Valid() && log == [] && base.Length == n && fresh(base)
    {
      base := new WalEntry[n](i => ZERO_ENTRY);
      total, log := 0, [];
    }

    method Append(e: WalEntry)
      requires Valid()
      modifies this, base
      ensures Valid() && log == old(log) + [e]
    {
      RingAppend(base[..], log, e);
      var pos := total % base.Length;
      base[pos] := e;
      total := total + 1;
      log := log + [e];
    }
  }
}
