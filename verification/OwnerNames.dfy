/**
 Names of image lease owners. A name starts with the prefix its caller gave, which
 is read back as the cluster the owner works for when leases are reconciled.
 */
module OwnerNames {
  import opened Strings

  /** The prefix, then process, time and sequence number. */
  function OwnerName(prefix: string, pid: nat, nanos: nat, sequence: nat): string {
    prefix + "-p" + Numbers(pid, nanos, sequence)
  }

  function Numbers(pid: nat, nanos: nat, sequence: nat): string {
    FormatNat(pid) + "-" + FormatNat(nanos) + "-" + FormatNat(sequence)
  }

  /** The last position of a string in another, or -1. */
  function LastOccurrence(s: string, sub: string): (i: int)
    ensures i == -1 || (0 <= i && OccursAt(s, sub, i))
    ensures forall k: nat | i < k :: !OccursAt(s, sub, k)
  {
    LastOccurrenceBelow(s, sub, |s| + 1)
  }

  function LastOccurrenceBelow(s: string, sub: string, end: nat): (i: int)
    requires end <= |s| + 1
    ensures i == -1 || (0 <= i < end && OccursAt(s, sub, i))
    ensures forall k: nat | i < k < end :: !OccursAt(s, sub, k)
  {
    if end == 0 then -1
    else if OccursAt(s, sub, end - 1) then end - 1
    else LastOccurrenceBelow(s, sub, end - 1)
  }

  /** The cluster an owner name hints at: what stands before its last "-p", if that is not empty. */
  function ClusterHint(owner: string): string {
    var i := LastOccurrence(owner, "-p");
    if i > 0 then owner[..i] else owner
  }

  /** A name without such a mark behind its start hints at itself. */
  lemma NameIsHint(owner: string)
    requires forall i: nat | 0 < i :: !OccursAt(owner, "-p", i)
    ensures ClusterHint(owner) == owner
  {
  }

  lemma NumbersHaveNoP(pid: nat, nanos: nat, sequence: nat)
    ensures 'p' !in Numbers(pid, nanos, sequence)
  {
  }

  /** The prefix is read back from every generated name, even one that has "-p" in it. */
  lemma HintIsPrefix(prefix: string, pid: nat, nanos: nat, sequence: nat)
    requires prefix != ""
    ensures ClusterHint(OwnerName(prefix, pid, nanos, sequence)) == prefix
  {
    hide Numbers, LastOccurrence;
    var numbers := Numbers(pid, nanos, sequence);
    var owner := prefix + "-p" + numbers;
    NumbersHaveNoP(pid, nanos, sequence);
    assert owner[|prefix|..] == "-p" + numbers;
    assert OccursAt(owner, "-p", |prefix|);
    forall k: nat | k > |prefix| ensures !OccursAt(owner, "-p", k) {
      if k + 1 < |owner| {
        assert owner[k..][1] == owner[k + 1] == numbers[k - 1 - |prefix|];
      }
    }
    assert owner[..|prefix|] == prefix;
  }

  /** A dash ends a run of digits. */
  lemma DigitsSplit(a: string, x: string, b: string, y: string)
    requires '-' !in a && '-' !in b && a + "-" + x == b + "-" + y
    ensures a == b && x == y
  {
    CutChar(a, '-', x);
    CutChar(b, '-', y);
  }

  /** Different prefixes, processes, times or sequence numbers give different names. */
  lemma NamesDiffer(prefix: string, pid: nat, nanos: nat, sequence: nat,
                    prefix': string, pid': nat, nanos': nat, sequence': nat)
    requires prefix != "" && prefix' != ""
    requires OwnerName(prefix, pid, nanos, sequence) == OwnerName(prefix', pid', nanos', sequence')
    ensures prefix == prefix' && pid == pid' && nanos == nanos' && sequence == sequence'
  {
    hide ClusterHint, FormatNat;
    HintIsPrefix(prefix, pid, nanos, sequence);
    HintIsPrefix(prefix', pid', nanos', sequence');
    var p, n, s := FormatNat(pid), FormatNat(nanos), FormatNat(sequence);
    var p', n', s' := FormatNat(pid'), FormatNat(nanos'), FormatNat(sequence');
    assert OwnerName(prefix, pid, nanos, sequence)[|prefix| + 2..] == p + "-" + n + "-" + s;
    assert OwnerName(prefix', pid', nanos', sequence')[|prefix| + 2..] == p' + "-" + n' + "-" + s';
    assert p + "-" + n + "-" + s == p + "-" + (n + "-" + s);
    assert p' + "-" + n' + "-" + s' == p' + "-" + (n' + "-" + s');
    DigitsSplit(p, n + "-" + s, p', n' + "-" + s');
    DigitsSplit(n, s, n', s');
    ValueOfFormat(pid);
    ValueOfFormat(pid');
    ValueOfFormat(nanos);
    ValueOfFormat(nanos');
    ValueOfFormat(sequence);
    ValueOfFormat(sequence');
  }

  // ---------------------------------------------------------------- reconciling

  /** Owners outside the rig's cluster names count as live. */
  predicate IsLive(clusters: seq<string>, hint: string) {
    HasPrefix(hint, "da-") ==> hint in clusters
  }

  method OwnerClusterIsLive(clusters: seq<string>, hint: string) returns (live: bool)
    ensures live <==> IsLive(clusters, hint)
  {
    if !HasPrefix(hint, "da-") {
      return true;
    }
    for i := 0 to |clusters|
      invariant hint !in clusters[..i]
    {
      if clusters[i] == hint {
        return true;
      }
    }
    live := false;
  }

  function LiveOwners(owners: map<string, nat>, clusters: seq<string>): map<string, nat> {
    map name | name in owners && IsLive(clusters, ClusterHint(name)) :: owners[name]
  }

  /** Deletes the owners whose cluster is gone, whatever order the names are visited in. */
  method DropDeadOwners(owners: map<string, nat>, clusters: seq<string>) returns (kept: map<string, nat>, changed: bool)
    ensures kept == LiveOwners(owners, clusters)
    ensures changed <==> kept != owners
  {
    hide ClusterHint, IsLive;
    kept, changed := owners, false;
    var names := owners.Keys;
    while names != {}
      invariant names <= owners.Keys
      invariant forall n | n in kept :: n in owners && kept[n] == owners[n]
      invariant forall n | n in owners :: n in kept <==> n in names || IsLive(clusters, ClusterHint(n))
      invariant changed <==> exists n | n in owners :: n !in kept
      decreases |names|
    {
      var name :| name in names;
      names := names - {name};
      var live := OwnerClusterIsLive(clusters, ClusterHint(name));
      if !live {
        kept := kept - {name};
        changed := true;
        assert name in owners && name !in kept;
      }
    }
  }

  /** Of the owners with generated names, exactly those for a rig cluster that is not listed are dropped. */
  lemma DroppedExactly(owners: map<string, nat>, clusters: seq<string>, prefix: string, pid: nat, nanos: nat,
                       sequence: nat)
    requires prefix != "" && OwnerName(prefix, pid, nanos, sequence) in owners
    ensures OwnerName(prefix, pid, nanos, sequence) !in LiveOwners(owners, clusters) <==>
            HasPrefix(prefix, "da-") && prefix !in clusters
  {
    hide ClusterHint, OwnerName;
    HintIsPrefix(prefix, pid, nanos, sequence);
  }
}
