/** What holds in every run of the image lease protocol, whatever the interleaving. */
module LeaseSafety {
  import opened Wrappers
  import opened OwnerNames
  import opened LeaseProtocol

  // ---------------------------------------------------------------- every step keeps Sound

  lemma NextStageIsForRef(rules: Rules, h: Host, e: Event)
    requires ByProcess(e) && !e.Unlocked? && !e.Locked? && Inside(h, e.p)
    ensures NextStage(rules, h, e).ref == h.stages[e.p].ref
  {
    hide Load, LiveOwners;
  }

  /** Who is inside after a step, and what the step does to the locks. */
  lemma LocksAfter(rules: Rules, h: Host, e: Event, q: Proc)
    requires Allowed(rules, h, e) && Inside(After(rules, h, e), q)
    ensures var h' := After(rules, h, e);
            if IsLockOf(e, q) then
              h'.stages[q].ref == e.ref && h'.locks == h.locks[rules.path(e.ref) := q]
            else
              && Inside(h, q) && h'.stages[q].ref == h.stages[q].ref
              && (!e.Locked? && !e.Unlocked? ==> h'.locks == h.locks)
              && (e.Locked? ==> rules.path(e.ref) !in h.locks && h'.locks == h.locks[rules.path(e.ref) := e.p])
              && (e.Unlocked? ==>
                    e.p != q && Inside(h, e.p) &&
                    (h'.locks == h.locks || h'.locks == h.locks - {FileOf(rules, h, e.p)}))
  {
    hide NextStage, StoreAfter, TagsAfter, LiveAfter, MayUntag, Strings.TrimSpace, SameImage, NewOwner;
    if ByProcess(e) && !e.Unlocked? && e.p == q {
      if e.Locked? {
        FirstStage(rules, h, e);
      } else {
        StepIsInside(rules, h, e);
        NextStageIsForRef(rules, h, e);
      }
    }
  }

  lemma FirstStage(rules: Rules, h: Host, e: Event)
    requires e.Locked?
    ensures NextStage(rules, h, e) == Entered(e.ref)
  {
  }

  predicate IsLockOf(e: Event, q: Proc) {
    e.Locked? && e.p == q
  }

  lemma StepKeepsLocks(rules: Rules, h: Host, e: Event, q: Proc)
    requires Sound(rules, h) && Allowed(rules, h, e) && Inside(After(rules, h, e), q)
    ensures HoldsLock(rules, After(rules, h, e), q)
  {
    hide StageAgrees, LeaseRecorded, Generated, After, Allowed;
    LocksAfter(rules, h, e, q);
    if Inside(h, q) {
      assert HoldsLock(rules, h, q);
    }
    if e.Unlocked? && Inside(h, e.p) {
      assert HoldsLock(rules, h, e.p);
    }
  }

  /** A step touches one record file, one tag, and the leases of one reference. */
  lemma StepIsLocal(rules: Rules, h: Host, e: Event, ref: string)
    requires Allowed(rules, h, e)
    requires ByProcess(e) && !e.Locked? ==> FileOf(rules, h, e.p) != rules.path(ref) && h.stages[e.p].ref != ref
    ensures SameFor(rules, h, After(rules, h, e), ref)
  {
    hide Load, LiveOwners, NextStage, NewRecord, TagsAfter, NewOwner, MayUntag, Strings.TrimSpace, SameImage;
  }

  lemma StepKeepsGuardedTag(rules: Rules, h: Host, e: Event, q: Proc)
    requires Allowed(rules, h, e) && Inside(h, q)
    requires ByProcess(e) && !e.Locked? ==> e.p != q && h.stages[e.p].ref != h.stages[q].ref
    ensures var s := h.stages[q];
            Guarded(s, s.ref) && s.ref in h.tags ==>
              s.ref in After(rules, h, e).tags && After(rules, h, e).tags[s.ref] == h.tags[s.ref]
  {
    hide Load, LiveOwners, NextStage, StoreAfter, LiveAfter, NewOwner, MayUntag, Strings.TrimSpace, SameImage;
  }

  /** A process's step leaves alone what another one in a critical section depends on. */
  lemma StepKeepsOthers(rules: Rules, h: Host, e: Event, q: Proc)
    requires Sound(rules, h) && Allowed(rules, h, e) && Inside(h, q) && (ByProcess(e) ==> e.p != q)
    ensures StageAgrees(rules, After(rules, h, e), h.stages[q])
  {
    hide StageAgrees, LeaseRecorded, HoldsLock, Generated, After, SameFor, Allowed;
    assert StageAgrees(rules, h, h.stages[q]);
    StepIsInside(rules, h, e);
    if ByProcess(e) && !e.Locked? {
      SectionsAreApart(rules, h, e.p, q);
    }
    StepIsLocal(rules, h, e, h.stages[q].ref);
    StepKeepsGuardedTag(rules, h, e, q);
    StageFrame(rules, h, After(rules, h, e), h.stages[q]);
  }

  lemma StepIsInside(rules: Rules, h: Host, e: Event)
    requires Allowed(rules, h, e)
    ensures ByProcess(e) && !e.Locked? ==> Inside(h, e.p)
  {
  }

  lemma ReadKeepsOwn(rules: Rules, h: Host, e: Event)
    requires Sound(rules, h) && Allowed(rules, h, e) && (e.Read? || e.Locked? || e.Sighted? || e.Resolved?)
    ensures StageAgrees(rules, After(rules, h, e), NextStage(rules, h, e))
  {
    hide LeaseRecorded, HoldsLock, Normal, LiveOwners;
    if !e.Locked? {
      assert StageAgrees(rules, h, h.stages[e.p]);
    }
  }

  lemma DropKeepsOwn(rules: Rules, h: Host, e: Event)
    requires Sound(rules, h) && Allowed(rules, h, e) && (e.Dropped? || e.Reconciled?)
    ensures StageAgrees(rules, After(rules, h, e), NextStage(rules, h, e))
  {
    hide LeaseRecorded, HoldsLock, Normal, LiveOwners;
    assert StageAgrees(rules, h, h.stages[e.p]);
    var ref := h.stages[e.p].ref;
    if e.Reconciled? {
      var gone := NextStage(rules, h, e).gone;
      forall o | o in gone ensures LeaseKey(ref, o) !in After(rules, h, e).live {
        assert LeaseKey(ref, o) in (set x | x in gone :: LeaseKey(ref, x));
      }
    }
  }

  lemma DockerKeepsOwn(rules: Rules, h: Host, e: Event)
    requires Sound(rules, h) && Allowed(rules, h, e) && (e.Inspect? || e.Listed? || e.Untagged?)
    ensures StageAgrees(rules, After(rules, h, e), NextStage(rules, h, e))
  {
    hide LeaseRecorded, HoldsLock, Normal, Managed, LiveOwners;
    assert StageAgrees(rules, h, h.stages[e.p]);
  }

  lemma StepKeepsOwn(rules: Rules, h: Host, e: Event)
    requires Sound(rules, h) && Allowed(rules, h, e) && ByProcess(e) && !e.Unlocked?
    ensures StageAgrees(rules, After(rules, h, e), NextStage(rules, h, e))
  {
    hide Sound, Allowed, After;
    if e.Read? || e.Locked? || e.Sighted? || e.Resolved? {
      ReadKeepsOwn(rules, h, e);
    } else if e.Dropped? || e.Reconciled? {
      DropKeepsOwn(rules, h, e);
    } else if e.Inspect? || e.Listed? || e.Untagged? {
      DockerKeepsOwn(rules, h, e);
    } else {
      ClosingAgrees(rules, h, e);
    }
  }

  lemma ClosingAgrees(rules: Rules, h: Host, e: Event)
    requires Allowed(rules, h, e) && (e.Recorded? || e.Kept? || e.Noted? || e.Deleted? || e.Unresolved?)
    ensures NextStage(rules, h, e).Closing?
    ensures StageAgrees(rules, After(rules, h, e), NextStage(rules, h, e))
  {
  }

  lemma StepKeepsStages(rules: Rules, h: Host, e: Event, q: Proc)
    requires Sound(rules, h) && Allowed(rules, h, e) && Inside(After(rules, h, e), q)
    ensures StageAgrees(rules, After(rules, h, e), After(rules, h, e).stages[q])
  {
    hide StageAgrees, Sound, Allowed, NextStage, StoreAfter, TagsAfter, LiveAfter;
    if ByProcess(e) && e.p == q {
      StepKeepsOwn(rules, h, e);
    } else {
      StepKeepsOthers(rules, h, e, q);
    }
  }

  // ---------------------------------------------------------------- every step keeps the leases

  /** While a process works on a reference, its record file holds no other reference's record. */
  lemma FileIsOwn(rules: Rules, h: Host, p: Proc, k: LeaseKey)
    requires Sound(rules, h) && Inside(h, p) && k in h.live && rules.path(k.reference) == FileOf(rules, h, p)
    requires !h.stages[p].Entered? && !h.stages[p].Closing?
    ensures k.reference == h.stages[p].ref
    ensures !((h.stages[p].Looked? || h.stages[p].Settled?) && h.stages[p].found.None?)
  {
    hide Normal, Managed;
    assert StageAgrees(rules, h, h.stages[p]);
    assert LeaseRecorded(rules, h, k);
  }

  /**
   A process never records a name that was given out before: no other process has its number,
   and its counter only grows.
   */
  lemma NameIsNew(h: Host, e: Event, name: string)
    requires e.Recorded? && e.prefix != "" && Generated(h, name)
    ensures name != NewOwner(h, e)
  {
    hide OwnerName;
    var prefix: string, q: Proc, nanos: nat, sequence: nat :| prefix != "" && sequence <= Count(h, q)
        && name == OwnerName(prefix, q, nanos, sequence);
    if name == NewOwner(h, e) {
      NamesDiffer(prefix, q, nanos, sequence, e.prefix, e.p, e.nanos, Count(h, e.p) + 1);
    }
  }

  /** What a step does to the names given out and the counters. */
  lemma NamesAfter(rules: Rules, h: Host, e: Event)
    requires Allowed(rules, h, e)
    ensures var h' := After(rules, h, e);
            if e.Recorded? then
              && h'.names == h.names + {NewOwner(h, e)} && e.prefix != ""
              && forall q :: Count(h', q) == Count(h, q) + if q == e.p then 1 else 0
            else h'.names == h.names && h'.counters == h.counters
  {
    hide OwnerName, StoreAfter, TagsAfter, LiveAfter, NextStage, MayUntag, Strings.TrimSpace, SameImage;
  }

  lemma GeneratedGrows(h: Host, h': Host, name: string)
    requires Generated(h, name) && forall q :: Count(h, q) <= Count(h', q)
    ensures Generated(h', name)
  {
    hide OwnerName, Count;
  }

  lemma StepKeepsGenerated(rules: Rules, h: Host, e: Event, name: string)
    requires Sound(rules, h) && Allowed(rules, h, e) && name in After(rules, h, e).names
    ensures Generated(After(rules, h, e), name)
  {
    hide OwnerName, StageAgrees, LeaseRecorded, HoldsLock, After, Allowed, Generated;
    var h' := After(rules, h, e);
    NamesAfter(rules, h, e);
    if name in h.names {
      GeneratedGrows(h, h', name);
    } else {
      NewNameIsGenerated(h', e.prefix, e.p, e.nanos, Count(h, e.p) + 1);
    }
  }

  lemma NewNameIsGenerated(h: Host, prefix: string, p: Proc, nanos: nat, sequence: nat)
    requires prefix != "" && sequence <= Count(h, p)
    ensures Generated(h, OwnerName(prefix, p, nanos, sequence))
  {
    hide OwnerName;
  }

  lemma LeaseStays(rules: Rules, h: Host, e: Event, k: LeaseKey)
    requires Sound(rules, h) && Allowed(rules, h, e) && k in h.live && k in After(rules, h, e).live
    ensures h.live[k] == After(rules, h, e).live[k]
  {
    hide NextStage, StoreAfter, TagsAfter, StageAgrees, HoldsLock, Strings.TrimSpace, SameImage, Generated,
         OwnerName, LiveOwners;
    if e.Recorded? {
      NameIsNew(h, e, k.owner);
    }
  }

  lemma OtherFileKeepsLease(rules: Rules, h: Host, e: Event, k: LeaseKey)
    requires Allowed(rules, h, e) && k in h.live && LeaseRecorded(rules, h, k)
    requires k in After(rules, h, e).live && h.live[k] == After(rules, h, e).live[k]
    requires Writes(e) ==> rules.path(k.reference) != FileOf(rules, h, e.p)
    ensures LeaseRecorded(rules, After(rules, h, e), k)
  {
    hide NextStage, LiveAfter, TagsAfter, Joined, Without;
  }

  ghost predicate Keeps(written: Option<Record>, k: LeaseKey, lease: Lease) {
    && written.Some? && written.value.reference == k.reference
    && k.owner in written.value.owners && written.value.imageId == lease.imageId
  }

  lemma RecordingKeepsLease(rules: Rules, h: Host, e: Event, k: LeaseKey)
    requires Sound(rules, h) && k in h.live && e.Recorded? && Writable(rules, h, e) && Allowed(rules, h, e)
    requires rules.path(k.reference) == FileOf(rules, h, e.p)
    ensures k.reference == h.stages[e.p].ref
    ensures Keeps(NewRecord(rules, h, e), k, h.live[k])
  {
    hide HoldsLock, Strings.TrimSpace, OnDisk, Normal, Generated, NewOwner, StageAgrees;
    assert LeaseRecorded(rules, h, k);
    FileIsOwn(rules, h, e.p, k);
    OwnersOnDisk(rules, h, e.p);
  }

  /** The local copy without the dropped owners still shows every live lease of its file. */
  lemma CopyKeepsLease(rules: Rules, h: Host, p: Proc, k: LeaseKey)
    requires Sound(rules, h) && k in h.live && Inside(h, p) && HasCopy(h.stages[p])
    requires rules.path(k.reference) == FileOf(rules, h, p)
    ensures k.reference == h.stages[p].ref
    ensures Keeps(Some(Without(h.stages[p].record, h.stages[p].gone)), k, h.live[k])
  {
    hide HoldsLock, OnDisk, Normal, Generated, StageAgrees;
    assert LeaseRecorded(rules, h, k);
    FileIsOwn(rules, h, p, k);
    OwnersOnDisk(rules, h, p);
    GoneAreNotLive(rules, h, p, k);
  }

  /** A record is deleted only when none of its owners is left. */
  lemma DeletedHasNoOwners(rules: Rules, h: Host, e: Event)
    requires Sound(rules, h) && Allowed(rules, h, e) && e.Deleted? && Inside(h, e.p)
    ensures HasCopy(h.stages[e.p]) && h.stages[e.p].record.owners.Keys <= h.stages[e.p].gone
  {
    hide HoldsLock, OnDisk, Generated, LeaseRecorded, MayUntag;
    assert StageAgrees(rules, h, h.stages[e.p]);
  }

  lemma DroppingKeepsLease(rules: Rules, h: Host, e: Event, k: LeaseKey)
    requires Sound(rules, h) && k in h.live && !e.Recorded? && Writable(rules, h, e) && Allowed(rules, h, e)
    requires rules.path(k.reference) == FileOf(rules, h, e.p)
    ensures k.reference == h.stages[e.p].ref
    ensures Keeps(NewRecord(rules, h, e), k, h.live[k])
  {
    hide Sound, Allowed;
    CopyKeepsLease(rules, h, e.p, k);
    if e.Deleted? {
      DeletedHasNoOwners(rules, h, e);
    }
  }

  /** What a process writes into the file of its reference keeps the owners that are still live. */
  lemma OwnFileKeepsLease(rules: Rules, h: Host, e: Event, k: LeaseKey)
    requires Sound(rules, h) && k in h.live && Writable(rules, h, e) && Allowed(rules, h, e)
    requires rules.path(k.reference) == FileOf(rules, h, e.p)
    ensures k.reference == h.stages[e.p].ref
    ensures Keeps(NewRecord(rules, h, e), k, h.live[k])
  {
    hide Sound, Allowed, NewRecord, Keeps, FileOf;
    if e.Recorded? {
      RecordingKeepsLease(rules, h, e, k);
    } else {
      DroppingKeepsLease(rules, h, e, k);
    }
  }

  lemma GoneAreNotLive(rules: Rules, h: Host, p: Proc, k: LeaseKey)
    requires Sound(rules, h) && Inside(h, p) && k in h.live && k.reference == h.stages[p].ref && HasCopy(h.stages[p])
    ensures k.owner !in h.stages[p].gone
  {
    hide MayUntag, OnDisk, HoldsLock, LeaseRecorded, Generated;
    assert StageAgrees(rules, h, h.stages[p]);
    assert k == LeaseKey(h.stages[p].ref, k.owner);
  }

  lemma WriterIsInside(rules: Rules, h: Host, e: Event)
    requires Allowed(rules, h, e)
    ensures Writes(e) ==> Inside(h, e.p) && Writable(rules, h, e)
  {
    hide MayUntag, Strings.TrimSpace, SameImage;
  }

  /** A lease that stays live stays recorded. */
  lemma StepKeepsLease(rules: Rules, h: Host, e: Event, k: LeaseKey)
    requires Sound(rules, h) && Allowed(rules, h, e) && k in h.live && k in After(rules, h, e).live
    ensures h.live[k] == After(rules, h, e).live[k]
    ensures LeaseRecorded(rules, After(rules, h, e), k)
  {
    hide Allowed, NewRecord, StageAgrees, HoldsLock, NextStage, LiveAfter, TagsAfter;
    LeaseStays(rules, h, e, k);
    WriterIsInside(rules, h, e);
    if Writes(e) && rules.path(k.reference) == FileOf(rules, h, e.p) {
      OwnFileKeepsLease(rules, h, e, k);
    } else {
      assert LeaseRecorded(rules, h, k);
      OtherFileKeepsLease(rules, h, e, k);
    }
  }

  /** The local copy has the owners and the image of the record on disk. */
  lemma OwnersOnDisk(rules: Rules, h: Host, p: Proc)
    requires Sound(rules, h) && Inside(h, p)
    ensures var s := h.stages[p];
            (s.Looked? || s.Settled?) && s.found.Some? ==>
              SameOwners(rules, h, s.ref, s.found.value)
    ensures var s := h.stages[p];
            s.Dropping? || s.Inspected? || s.Unused? || s.Removable? || s.Refused? ==>
              SameOwners(rules, h, s.ref, s.record)
  {
    hide MayUntag;
    assert StageAgrees(rules, h, h.stages[p]);
  }

  ghost predicate SameOwners(rules: Rules, h: Host, ref: string, r: Record) {
    && OnDisk(rules, h, ref, r) && r.reference == ref
    && h.store[rules.path(ref)].owners == r.owners && h.store[rules.path(ref)].imageId == r.imageId
  }

  /** A lease that begins is recorded. */
  lemma NewLeaseIsRecorded(rules: Rules, h: Host, e: Event, k: LeaseKey)
    requires Sound(rules, h) && Allowed(rules, h, e) && k !in h.live && k in After(rules, h, e).live
    ensures e.Recorded? && k == LeaseKey(h.stages[e.p].ref, NewOwner(h, e))
    ensures LeaseRecorded(rules, After(rules, h, e), k)
  {
    hide OwnerName, Generated, Strings.TrimSpace, Load, LiveOwners, HoldsLock, MayUntag, NextStage;
    assert StageAgrees(rules, h, h.stages[e.p]);
  }

  lemma StepKeepsNames(rules: Rules, h: Host, e: Event, k: LeaseKey)
    requires Sound(rules, h) && Allowed(rules, h, e) && k in After(rules, h, e).live
    ensures k.owner in After(rules, h, e).names
  {
    hide LeaseRecorded, StageAgrees, HoldsLock, StoreAfter, TagsAfter, NextStage, OwnerName, Generated;
  }

  /** Every allowed step, of any process or of somebody else, keeps the host sound. */
  lemma StepKeepsSound(rules: Rules, h: Host, e: Event)
    requires Sound(rules, h) && Allowed(rules, h, e)
    ensures Sound(rules, After(rules, h, e))
  {
    hide Allowed, After, StageAgrees, HoldsLock, LeaseRecorded, Generated;
    var h' := After(rules, h, e);
    forall n | n in h'.names ensures Generated(h', n) {
      StepKeepsGenerated(rules, h, e, n);
    }
    forall q | q in h'.stages ensures HoldsLock(rules, h', q) && StageAgrees(rules, h', h'.stages[q]) {
      StepKeepsLocks(rules, h, e, q);
      StepKeepsStages(rules, h, e, q);
    }
    forall k | k in h'.live ensures LeaseRecorded(rules, h', k) && k.owner in h'.names {
      StepKeepsNames(rules, h, e, k);
      if k in h.live {
        StepKeepsLease(rules, h, e, k);
      } else {
        NewLeaseIsRecorded(rules, h, e, k);
      }
    }
  }

  lemma {:induction false} RunIsSound(rules: Rules, start: Host, log: seq<Event>)
    requires IsStart(start) && Legal(rules, start, log)
    ensures Sound(rules, At(rules, start, log))
  {
    hide Sound, Allowed, After;
    if log == [] {
      StartIsSound(rules, start);
    } else {
      RunIsSound(rules, start, log[..|log| - 1]);
      StepKeepsSound(rules, At(rules, start, log[..|log| - 1]), log[|log| - 1]);
    }
  }

  lemma StartIsSound(rules: Rules, start: Host)
    requires IsStart(start)
    ensures Sound(rules, start)
  {
  }

  // ---------------------------------------------------------------- what follows for every run

  /** Event k of a legal log and the host it happens on. */
  lemma Moment(rules: Rules, start: Host, log: seq<Event>, k: nat) returns (h: Host)
    requires IsStart(start) && Legal(rules, start, log) && k < |log|
    ensures Legal(rules, start, log[..k]) && h == At(rules, start, log[..k])
    ensures Sound(rules, h) && Allowed(rules, h, log[k])
    ensures Legal(rules, start, log[..k + 1]) && At(rules, start, log[..k + 1]) == After(rules, h, log[k])
  {
    hide Sound, Allowed, After;
    LegalPrefix(rules, start, log, k);
    LegalPrefix(rules, start, log, k + 1);
    assert log[..k + 1][..k] == log[..k];
    RunIsSound(rules, start, log[..k]);
    h := At(rules, start, log[..k]);
  }

  /** Since step j, which found no container on the image, process p has done nothing else. */
  ghost predicate ListedFree(rules: Rules, start: Host, log: seq<Event>, p: Proc, id: string, j: nat)
    requires Legal(rules, start, log)
  {
    && j < |log| && log[j] == Listed(p, Free)
    && Legal(rules, start, log[..j]) && id !in At(rules, start, log[..j]).used
    && forall i | j < i < |log| :: !(ByProcess(log[i]) && log[i].p == p)
  }

  lemma UnusedStep(rules: Rules, h: Host, e: Event, p: Proc)
    requires Allowed(rules, h, e) && Inside(After(rules, h, e), p) && After(rules, h, e).stages[p].Unused?
    ensures if ByProcess(e) && e.p == p then e == Listed(p, Free)
            && After(rules, h, e).stages[p].record.imageId !in h.used
            else Inside(h, p) && h.stages[p] == After(rules, h, e).stages[p]
  {
    hide StoreAfter, TagsAfter, LiveAfter, Load, LiveOwners, MayUntag, Strings.TrimSpace, SameImage, NewOwner;
  }

  lemma {:induction false} UnusedWasListed(rules: Rules, start: Host, log: seq<Event>, p: Proc) returns (j: nat)
    requires IsStart(start) && Legal(rules, start, log)
    requires Inside(At(rules, start, log), p) && At(rules, start, log).stages[p].Unused?
    ensures ListedFree(rules, start, log, p, At(rules, start, log).stages[p].record.imageId, j)
  {
    hide Allowed, After;
    var k := |log| - 1;
    UnusedStep(rules, At(rules, start, log[..k]), log[k], p);
    if ByProcess(log[k]) && log[k].p == p {
      j := k;
    } else {
      j := UnusedWasListed(rules, start, log[..k], p);
      assert log[..k][..j] == log[..j];
    }
  }

  /** The class of a record, or of its reference where the record has none, is one of images made here. */
  predicate OfLocalImage(rules: Rules, r: Record) {
    var classified := rules.classify(r.reference);
    var c := if r.imageClass == Unclassified && classified.Some? then classified.value.imageClass else r.imageClass;
    c != Upstream && c != Unclassified
  }

  lemma LocalIsManaged(rules: Rules, r: Record)
    ensures Managed(Normal(rules, r).imageClass) <==> OfLocalImage(rules, r)
  {
  }

  /**
   An image tag is removed only when nobody holds a lease on the reference, every
   recorded owner is one this release or reconciliation has just dropped, the record
   does not say that the tag was there before the lease group (LeaseOrigin tells what
   that means), its class is managed, it still names the leased image, and no
   container used that image when docker was asked for them as the step before.
   */
  lemma RemovalIsSafe(rules: Rules, start: Host, log: seq<Event>, k: nat) returns (j: nat)
    requires IsStart(start) && Legal(rules, start, log) && k < |log| && log[k].Untagged?
    ensures Legal(rules, start, log[..k])
    ensures var h := At(rules, start, log[..k]);
            && Inside(h, log[k].p) && h.stages[log[k].p].Unused?
            && var s := h.stages[log[k].p];
            && (forall o :: LeaseKey(s.ref, o) !in h.live)
            && FileOf(rules, h, log[k].p) in h.store
            && var r := h.store[FileOf(rules, h, log[k].p)];
            && r.reference == s.ref && r.owners.Keys <= s.gone
            && !r.preExisting && OfLocalImage(rules, r)
            && Tagged(h, s.ref, r.imageId)
            && ListedFree(rules, start, log[..k], log[k].p, r.imageId, j)
  {
    hide Sound, After, Normal, Managed, ListedFree, OfLocalImage;
    var h := Moment(rules, start, log, k);
    var p := log[k].p;
    var s := h.stages[p];
    UnusedAgrees(rules, h, p);
    LocalIsManaged(rules, h.store[FileOf(rules, h, p)]);
    j := UnusedWasListed(rules, start, log[..k], p);
    forall o ensures LeaseKey(s.ref, o) !in h.live {
      NoLiveLeaseToRemove(rules, h, p, LeaseKey(s.ref, o));
    }
  }

  /** The process about to remove a tag knows what it must. */
  lemma UnusedAgrees(rules: Rules, h: Host, p: Proc)
    requires Sound(rules, h) && Inside(h, p) && h.stages[p].Unused?
    ensures var s := h.stages[p];
            && FileOf(rules, h, p) in h.store
            && var r := h.store[FileOf(rules, h, p)];
            && r.reference == s.ref && r.owners.Keys <= s.gone
            && !r.preExisting && Managed(Normal(rules, r).imageClass)
            && Tagged(h, s.ref, r.imageId) && s.record.imageId == r.imageId
  {
    hide HoldsLock, LeaseRecorded, Generated, Managed;
    assert StageAgrees(rules, h, h.stages[p]);
  }

  lemma NoLiveLeaseToRemove(rules: Rules, h: Host, p: Proc, k: LeaseKey)
    requires Sound(rules, h) && Inside(h, p) && h.stages[p].Unused? && k.reference == h.stages[p].ref
    ensures k !in h.live
  {
    hide Managed;
    assert StageAgrees(rules, h, h.stages[p]);
    assert k == LeaseKey(k.reference, k.owner);
    assert k in h.live ==> LeaseRecorded(rules, h, k);
  }

  /** At every moment all leases held on a reference name one image: the recorded one. */
  lemma LeasesAgree(rules: Rules, start: Host, log: seq<Event>, one: LeaseKey, two: LeaseKey)
    requires IsStart(start) && Legal(rules, start, log)
    requires one in At(rules, start, log).live && two in At(rules, start, log).live && one.reference == two.reference
    ensures var h := At(rules, start, log);
            && h.live[one].imageId == h.live[two].imageId
            && rules.path(one.reference) in h.store
            && h.store[rules.path(one.reference)].imageId == h.live[one].imageId
            && one.owner in h.store[rules.path(one.reference)].owners
  {
    hide Allowed, After, StageAgrees;
    RunIsSound(rules, start, log);
    assert LeaseRecorded(rules, At(rules, start, log), one);
    assert LeaseRecorded(rules, At(rules, start, log), two);
  }

  lemma OwnFileHoldsOwn(rules: Rules, h: Host, e: Event)
    requires Sound(rules, h) && Allowed(rules, h, e) && Writes(e) && Inside(h, e.p)
    ensures FileOf(rules, h, e.p) in h.store ==> h.store[FileOf(rules, h, e.p)].reference == h.stages[e.p].ref
  {
    hide Normal, MayUntag, Generated, LeaseRecorded, HoldsLock, Strings.TrimSpace, SameImage;
    assert StageAgrees(rules, h, h.stages[e.p]);
  }

  lemma StepKeepsOtherRecords(rules: Rules, h: Host, e: Event, file: string)
    requires Sound(rules, h) && Allowed(rules, h, e) && file in h.store
    requires ByProcess(e) && Inside(h, e.p) ==> h.store[file].reference != h.stages[e.p].ref
    ensures file in After(rules, h, e).store && After(rules, h, e).store[file] == h.store[file]
  {
    hide LiveAfter, TagsAfter, NextStage, NewRecord, Sound, Allowed;
    WriterIsInside(rules, h, e);
    if Writes(e) {
      OwnFileHoldsOwn(rules, h, e);
    }
  }

  /**
   No step changes, deletes or replaces the record of a reference its process is not working
   on, even in a shared file.
   */
  lemma OtherRecordsUntouched(rules: Rules, start: Host, log: seq<Event>, k: nat, file: string)
    requires IsStart(start) && Legal(rules, start, log) && k < |log| && Legal(rules, start, log[..k])
    requires file in At(rules, start, log[..k]).store
    requires var h := At(rules, start, log[..k]);
             ByProcess(log[k]) && Inside(h, log[k].p) ==> h.store[file].reference != h.stages[log[k].p].ref
    ensures Legal(rules, start, log[..k + 1])
    ensures file in At(rules, start, log[..k + 1]).store
    ensures At(rules, start, log[..k + 1]).store[file] == At(rules, start, log[..k]).store[file]
  {
    hide Allowed, After, Sound, FileOf;
    var h := Moment(rules, start, log, k);
    StepKeepsOtherRecords(rules, h, log[k], file);
  }

  /** A lock is taken only while nobody is in a critical section on its file, whatever reference they are there for. */
  lemma LockIsNeverStolen(rules: Rules, start: Host, log: seq<Event>, k: nat, q: Proc)
    requires IsStart(start) && Legal(rules, start, log) && k < |log| && log[k].Locked? && Legal(rules, start, log[..k])
    requires Inside(At(rules, start, log[..k]), q)
    ensures FileOf(rules, At(rules, start, log[..k]), q) != rules.path(log[k].ref)
  {
    hide StageAgrees, LeaseRecorded;
    var h := Moment(rules, start, log, k);
    assert HoldsLock(rules, h, q);
  }

  lemma DropEnds(rules: Rules, h: Host, e: Event, lease: LeaseKey)
    requires Allowed(rules, h, e) && e.Dropped? && lease in h.live && lease !in LiveAfter(rules, h, e)
    ensures e.owner == lease.owner && h.live[lease].holder == e.p
  {
    hide NextStage;
  }

  lemma ReconcileEnds(rules: Rules, h: Host, e: Event, lease: LeaseKey)
    requires Allowed(rules, h, e) && e.Reconciled? && lease in h.live && lease !in LiveAfter(rules, h, e)
    ensures !IsLive(e.clusters, ClusterHint(lease.owner))
  {
    hide IsLive, ClusterHint, Load;
  }

  lemma OthersEndNone(rules: Rules, h: Host, e: Event, lease: LeaseKey)
    requires Allowed(rules, h, e) && lease in h.live && !e.Dropped? && !e.Reconciled?
    ensures lease in LiveAfter(rules, h, e)
  {
    hide NextStage, NewOwner, MayUntag, Strings.TrimSpace, SameImage;
  }

  /** A lease ends only when its holder releases it, or when its cluster is not among the listed ones. */
  lemma LeaseEnds(rules: Rules, start: Host, log: seq<Event>, k: nat, lease: LeaseKey)
    requires IsStart(start) && Legal(rules, start, log) && k < |log|
    requires Legal(rules, start, log[..k]) && Legal(rules, start, log[..k + 1])
    requires lease in At(rules, start, log[..k]).live && lease !in At(rules, start, log[..k + 1]).live
    ensures match log[k]
            case Dropped(p, owner) => owner == lease.owner && At(rules, start, log[..k]).live[lease].holder == p
            case Reconciled(p, clusters) => !IsLive(clusters, ClusterHint(lease.owner))
            case _ => false
  {
    hide Sound, Allowed, LiveAfter, StoreAfter, TagsAfter, NextStage, IsLive, ClusterHint;
    var h := Moment(rules, start, log, k);
    var e := log[k];
    if e.Dropped? {
      DropEnds(rules, h, e, lease);
    } else if e.Reconciled? {
      ReconcileEnds(rules, h, e, lease);
    } else {
      OthersEndNone(rules, h, e, lease);
    }
  }
}
