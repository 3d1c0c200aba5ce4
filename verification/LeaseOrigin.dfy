/**
 Where lease records come from, and so whose tags the last owner deletes: a record
 carries what docker said of the tag when the acquirer that started it looked.
 */
module LeaseOrigin {
  import opened Wrappers
  import Strings
  import opened OwnerNames
  import opened LeaseProtocol
  import opened LeaseSafety

  // ---------------------------------------------------------------- what an acquirer saw

  predicate IsBy(e: Event, p: Proc) {
    ByProcess(e) && e.p == p
  }

  /** Step i is process p's look, on finding this record or none; p has done nothing since but resolve. */
  ghost predicate SawAt(rules: Rules, start: Host, log: seq<Event>, p: Proc, ref: string, found: Option<Record>,
                        seen: Option<string>, i: nat)
    requires Legal(rules, start, log)
  {
    && i < |log| && log[i] == Sighted(p, seen)
    && Legal(rules, start, log[..i]) && Inside(At(rules, start, log[..i]), p)
    && At(rules, start, log[..i]).stages[p] == Looked(ref, found)
    && forall k | i < k < |log| && IsBy(log[k], p) :: log[k].Resolved?
  }

  lemma OthersKeepStage(rules: Rules, h: Host, e: Event, p: Proc)
    requires Allowed(rules, h, e) && !IsBy(e, p)
    ensures Inside(After(rules, h, e), p) <==> Inside(h, p)
    ensures Inside(h, p) ==> After(rules, h, e).stages[p] == h.stages[p]
  {
    hide StoreAfter, TagsAfter, LiveAfter, NextStage;
  }

  /** How a process comes to have looked, and to have settled on a result. */
  lemma SightStep(rules: Rules, h: Host, e: Event, p: Proc)
    requires Allowed(rules, h, e) && IsBy(e, p) && Inside(After(rules, h, e), p)
    ensures var s := After(rules, h, e).stages[p];
            && (s.Checked? ==> e == Sighted(p, s.seen) && Inside(h, p) && h.stages[p] == Looked(s.ref, s.found))
            && (s.Settled? ==> e.Resolved? && Inside(h, p) && h.stages[p].Checked? && h.stages[p].ref == s.ref
                               && h.stages[p].found == s.found && h.stages[p].seen.Some? == s.preExisted)
  {
    hide StoreAfter, TagsAfter, LiveAfter, Load, LiveOwners;
  }

  lemma {:induction false} CheckedWasSighted(rules: Rules, start: Host, log: seq<Event>, p: Proc) returns (i: nat)
    requires IsStart(start) && Legal(rules, start, log)
    requires Inside(At(rules, start, log), p) && At(rules, start, log).stages[p].Checked?
    ensures var s := At(rules, start, log).stages[p];
            SawAt(rules, start, log, p, s.ref, s.found, s.seen, i)
  {
    hide Allowed, After;
    var k := |log| - 1;
    var h := At(rules, start, log[..k]);
    if IsBy(log[k], p) {
      SightStep(rules, h, log[k], p);
      i := k;
    } else {
      OthersKeepStage(rules, h, log[k], p);
      i := CheckedWasSighted(rules, start, log[..k], p);
      assert log[..k][..i] == log[..i];
    }
  }

  lemma {:induction false} SettledWasSighted(rules: Rules, start: Host, log: seq<Event>, p: Proc)
    returns (i: nat, seen: Option<string>)
    requires IsStart(start) && Legal(rules, start, log)
    requires Inside(At(rules, start, log), p) && At(rules, start, log).stages[p].Settled?
    ensures var s := At(rules, start, log).stages[p];
            SawAt(rules, start, log, p, s.ref, s.found, seen, i) && s.preExisted == seen.Some?
  {
    hide Allowed, After;
    var k := |log| - 1;
    var h := At(rules, start, log[..k]);
    if IsBy(log[k], p) {
      SightStep(rules, h, log[k], p);
      i := CheckedWasSighted(rules, start, log[..k], p);
      seen := h.stages[p].seen;
    } else {
      OthersKeepStage(rules, h, log[k], p);
      i, seen := SettledWasSighted(rules, start, log[..k], p);
    }
    assert log[..k][..i] == log[..i];
  }

  // ---------------------------------------------------------------- where a record comes from

  /** The file has held a record ever since the log was that long. */
  ghost predicate HeldSince(rules: Rules, start: Host, log: seq<Event>, file: string, since: nat) {
    forall k | since <= k <= |log| :: Legal(rules, start, log[..k]) && file in At(rules, start, log[..k]).store
  }

  /** Two records of one lease group. */
  predicate SameGroup(a: Record, b: Record) {
    a.reference == b.reference && a.imageId == b.imageId && a.preExisting == b.preExisting
  }

  /** The record was there before the run. */
  ghost predicate WasThere(rules: Rules, start: Host, log: seq<Event>, file: string)
    requires Legal(rules, start, log) && file in At(rules, start, log).store
  {
    file in start.store && SameGroup(start.store[file], At(rules, start, log).store[file])
        && HeldSince(rules, start, log, file, 0)
  }

  /** At step j process p started the record, having found none and having looked for the tag at step i. */
  ghost predicate StartedBy(rules: Rules, start: Host, log: seq<Event>, file: string, p: Proc, i: nat, j: nat)
    requires Legal(rules, start, log) && file in At(rules, start, log).store
  {
    var r := At(rules, start, log).store[file];
    && i < j < |log| && log[i].Sighted? && log[j].Recorded? && log[j].ok && log[j].p == p
    && r.preExisting == log[i].seen.Some?
    && rules.path(r.reference) == file
    && Legal(rules, start, log[..j]) && file !in At(rules, start, log[..j]).store
    && SawAt(rules, start, log[..j], p, r.reference, None, log[i].seen, i)
    && HeldSince(rules, start, log, file, j + 1)
  }

  ghost predicate HasOrigin(rules: Rules, start: Host, log: seq<Event>, file: string)
    requires Legal(rules, start, log) && file in At(rules, start, log).store
  {
    WasThere(rules, start, log, file) || exists p: Proc, i: nat, j: nat :: StartedBy(rules, start, log, file, p, i, j)
  }

  lemma HeldOn(rules: Rules, start: Host, log: seq<Event>, file: string, since: nat)
    requires log != [] && Legal(rules, start, log) && file in At(rules, start, log).store
    requires HeldSince(rules, start, log[..|log| - 1], file, since) || since == |log|
    ensures HeldSince(rules, start, log, file, since)
  {
    hide Legal, At;
    forall k | since <= k <= |log| ensures Legal(rules, start, log[..k]) && file in At(rules, start, log[..k]).store {
      if k < |log| {
        assert log[..|log| - 1][..k] == log[..k];
      } else {
        assert log[..k] == log;
      }
    }
  }

  lemma OriginGoesOn(rules: Rules, start: Host, log: seq<Event>, file: string)
    requires log != [] && Legal(rules, start, log) && file in At(rules, start, log).store
    requires var before := log[..|log| - 1];
             && Legal(rules, start, before) && file in At(rules, start, before).store
                 && HasOrigin(rules, start, before, file)
             && SameGroup(At(rules, start, before).store[file], At(rules, start, log).store[file])
    ensures HasOrigin(rules, start, log, file)
  {
    hide Legal, At, HeldSince, SawAt;
    var before := log[..|log| - 1];
    if WasThere(rules, start, before, file) {
      HeldOn(rules, start, log, file, 0);
    } else {
      var p: Proc, i: nat, j: nat :| StartedBy(rules, start, before, file, p, i, j);
      HeldOn(rules, start, log, file, j + 1);
      assert before[..j] == log[..j];
      assert StartedBy(rules, start, log, file, p, i, j);
    }
  }

  /** A record is started by an acquirer that found none; everything else keeps its group. */
  lemma RecordStep(rules: Rules, h: Host, e: Event, file: string)
    requires Sound(rules, h) && Allowed(rules, h, e) && file in After(rules, h, e).store
    ensures var r := After(rules, h, e).store[file];
            || (file in h.store && SameGroup(h.store[file], r))
            || (e.Recorded? && e.ok && Starts(rules, h, e.p, file, r))
  {
    hide LiveAfter, TagsAfter, NextStage, Allowed, Sound, NewRecord;
    WriterIsInside(rules, h, e);
    if Writes(e) && FileOf(rules, h, e.p) == file {
      if e.Recorded? {
        RecordingStep(rules, h, e);
      } else {
        RewritingStep(rules, h, e);
      }
    }
  }

  /** What process p's stage says of the record it starts. */
  ghost predicate Starts(rules: Rules, h: Host, p: Proc, file: string, r: Record) {
    && file !in h.store && Inside(h, p) && h.stages[p].Settled? && h.stages[p].found.None?
    && rules.path(h.stages[p].ref) == file
    && r.reference == h.stages[p].ref && r.preExisting == h.stages[p].preExisted
  }

  lemma RecordingStep(rules: Rules, h: Host, e: Event)
    requires Sound(rules, h) && Allowed(rules, h, e) && e.Recorded? && Writable(rules, h, e)
    ensures NewRecord(rules, h, e).Some?
    ensures var file, r := FileOf(rules, h, e.p), NewRecord(rules, h, e).value;
            (file in h.store && SameGroup(h.store[file], r)) || Starts(rules, h, e.p, file, r)
  {
    hide HoldsLock, LeaseRecorded, Generated, NewOwner, Strings.TrimSpace;
    assert StageAgrees(rules, h, h.stages[e.p]);
  }

  lemma RewritingStep(rules: Rules, h: Host, e: Event)
    requires Sound(rules, h) && Allowed(rules, h, e) && !e.Recorded? && Writable(rules, h, e)
    ensures match NewRecord(rules, h, e)
            case None => true
            case Some(r) => FileOf(rules, h, e.p) in h.store && SameGroup(h.store[FileOf(rules, h, e.p)], r)
  {
    hide HoldsLock, LeaseRecorded, Generated, MayUntag, Strings.TrimSpace;
    assert StageAgrees(rules, h, h.stages[e.p]);
  }

  /**
   Every record was there before the run, or was started in it by an acquirer that
   had found none; its flag is what that acquirer's look at the tag had shown, and
   nothing has changed it since.
   */
  lemma {:induction false} RecordHasOrigin(rules: Rules, start: Host, log: seq<Event>, file: string)
    requires IsStart(start) && Legal(rules, start, log) && file in At(rules, start, log).store
    ensures HasOrigin(rules, start, log, file)
  {
    hide Allowed, After, Sound;
    if log == [] {
      assert HeldSince(rules, start, log, file, 0);
    } else {
      var k := |log| - 1;
      var before, e := log[..k], log[k];
      var h := At(rules, start, before);
      RunIsSound(rules, start, before);
      RecordStep(rules, h, e, file);
      if file in h.store && SameGroup(h.store[file], At(rules, start, log).store[file]) {
        RecordHasOrigin(rules, start, before, file);
        OriginGoesOn(rules, start, log, file);
      } else {
        var i, seen := SettledWasSighted(rules, start, before, e.p);
        HeldOn(rules, start, log, file, |log|);
        assert log[i] == before[i];
        assert StartedBy(rules, start, log, file, e.p, i, k);
      }
    }
  }

  // ---------------------------------------------------------------- whose tags are removed

  /** A look that does not show a tag that is there. */
  predicate MissesTag(h: Host, e: Event) {
    e.Sighted? && e.seen.None? && Inside(h, e.p) && h.stages[e.p].ref in h.tags
  }

  /** The record in whose name step k removes a tag. */
  ghost predicate RemovesFor(rules: Rules, start: Host, log: seq<Event>, k: nat, file: string)
    requires Legal(rules, start, log)
  {
    && k < |log| && log[k].Untagged? && Legal(rules, start, log[..k])
    && var h := At(rules, start, log[..k]);
    && Inside(h, log[k].p) && FileOf(rules, h, log[k].p) == file
    && file in h.store && !h.store[file].preExisting
  }

  /**
   A tag is removed only in the name of a record that was there before the run and
   says the tag was not, or that was started in the run by an acquirer that had
   found no record and whose look had shown no tag.
   */
  lemma RemovedTagWasNotSeen(rules: Rules, start: Host, log: seq<Event>, k: nat) returns (file: string)
    requires IsStart(start) && Legal(rules, start, log) && k < |log| && log[k].Untagged?
    ensures RemovesFor(rules, start, log, k, file)
    ensures || (WasThere(rules, start, log[..k], file) && !start.store[file].preExisting)
            || exists p: Proc, i: nat, j: nat :: StartedBy(rules, start, log[..k], file, p, i, j)
                && log[i] == Sighted(p, None)
  {
    hide HeldSince, SawAt, Normal, Managed;
    var l := RemovalIsSafe(rules, start, log, k);
    file := FileOf(rules, At(rules, start, log[..k]), log[k].p);
    RecordHasOrigin(rules, start, log[..k], file);
    if !WasThere(rules, start, log[..k], file) {
      var p: Proc, i: nat, j: nat :| StartedBy(rules, start, log[..k], file, p, i, j);
      StartersLook(rules, start, log[..k], file, p, i, j);
      assert log[..k][i] == log[i];
    }
  }

  lemma StartersLook(rules: Rules, start: Host, log: seq<Event>, file: string, p: Proc, i: nat, j: nat)
    requires Legal(rules, start, log) && file in At(rules, start, log).store
             && StartedBy(rules, start, log, file, p, i, j)
    ensures log[i].p == p && Legal(rules, start, log[..i]) && Inside(At(rules, start, log[..i]), p)
    ensures At(rules, start, log[..i]).stages[p] == Looked(At(rules, start, log).store[file].reference, None)
  {
    hide HeldSince;
    assert log[..j][..i] == log[..i] && log[..j][i] == log[i];
  }

  /**
   The tag a lease group removes was absent when the group's first acquirer looked
   for it, exactly when that look did not miss it.
   */
  lemma RemovedTagWasAbsent(rules: Rules, start: Host, log: seq<Event>, k: nat, file: string, p: Proc, i: nat, j: nat)
    requires IsStart(start) && Legal(rules, start, log) && RemovesFor(rules, start, log, k, file)
    requires StartedBy(rules, start, log[..k], file, p, i, j)
    ensures Legal(rules, start, log[..i])
    ensures var h := At(rules, start, log[..k]);
            h.stages[log[k].p].ref !in At(rules, start, log[..i]).tags <==>
                !MissesTag(At(rules, start, log[..i]), log[i])
  {
    hide HeldSince, SawAt, Normal, Managed, Legal, At;
    var l := RemovalIsSafe(rules, start, log, k);
    StartersLook(rules, start, log[..k], file, p, i, j);
    assert log[..k][..i] == log[..i] && log[..k][i] == log[i];
  }

  // ---------------------------------------------------------------- tags that are due are removed

  /** Process p last found the tag gone or removed it, and did nothing else since. */
  ghost predicate TagGoneAt(log: seq<Event>, p: Proc, i: nat) {
    && i < |log|
    && (log[i] == Inspect(p, None) || (log[i].Untagged? && log[i].p == p && log[i].ok && log[i].gone))
    && forall k | i < k < |log| :: !IsBy(log[k], p)
  }

  lemma RemovableStep(rules: Rules, h: Host, e: Event, p: Proc)
    requires Allowed(rules, h, e) && IsBy(e, p) && Inside(After(rules, h, e), p)
    requires After(rules, h, e).stages[p].Removable?
    ensures e == Inspect(p, None) || (e.Untagged? && e.p == p && e.ok && e.gone)
  {
    hide StoreAfter, TagsAfter, LiveAfter, Load, LiveOwners;
  }

  lemma {:induction false} RemovableHasNoTag(rules: Rules, start: Host, log: seq<Event>, p: Proc) returns (i: nat)
    requires IsStart(start) && Legal(rules, start, log)
    requires Inside(At(rules, start, log), p) && At(rules, start, log).stages[p].Removable?
    ensures TagGoneAt(log, p, i)
  {
    hide Allowed, After;
    var k := |log| - 1;
    var h := At(rules, start, log[..k]);
    if IsBy(log[k], p) {
      RemovableStep(rules, h, log[k], p);
      i := k;
    } else {
      OthersKeepStage(rules, h, log[k], p);
      i := RemovableHasNoTag(rules, start, log[..k], p);
    }
  }

  /**
   A record is deleted only when all its owners have been dropped, and a tag that is
   the lease group's is not left behind: docker showed none, or has just removed it.
   */
  lemma DeletedLeavesNoTag(rules: Rules, start: Host, log: seq<Event>, k: nat) returns (i: nat)
    requires IsStart(start) && Legal(rules, start, log) && k < |log| && log[k].Deleted?
    ensures Legal(rules, start, log[..k]) && Inside(At(rules, start, log[..k]), log[k].p)
    ensures var h := At(rules, start, log[..k]);
            && FileOf(rules, h, log[k].p) in h.store
            && var r := h.store[FileOf(rules, h, log[k].p)];
            && r.reference == h.stages[log[k].p].ref
            && (forall o | o in r.owners :: LeaseKey(r.reference, o) !in h.live)
            && (!r.preExisting && OfLocalImage(rules, r) ==> TagGoneAt(log[..k], log[k].p, i))
  {
    hide Sound, After, Normal, Managed, OfLocalImage;
    var h := Moment(rules, start, log, k);
    var p := log[k].p;
    DeletingAgrees(rules, h, log[k]);
    if h.stages[p].Removable? {
      i := RemovableHasNoTag(rules, start, log[..k], p);
    } else {
      i := 0;
      LocalIsManaged(rules, h.store[FileOf(rules, h, p)]);
    }
  }

  lemma DeletingAgrees(rules: Rules, h: Host, e: Event)
    requires Sound(rules, h) && Allowed(rules, h, e) && e.Deleted?
    ensures var s := h.stages[e.p];
            && FileOf(rules, h, e.p) in h.store
            && var r := h.store[FileOf(rules, h, e.p)];
            && r.reference == s.ref && (forall o | o in r.owners :: LeaseKey(s.ref, o) !in h.live)
            && (s.Removable? || r.preExisting || !Managed(Normal(rules, r).imageClass))
  {
    hide HoldsLock, LeaseRecorded, Generated, Managed;
    assert StageAgrees(rules, h, h.stages[e.p]);
  }

  // ---------------------------------------------------------------- a tag that is removed though it was there

  /** One more step of a run. */
  lemma Step(rules: Rules, start: Host, log: seq<Event>, e: Event) returns (h: Host, longer: seq<Event>)
    requires Legal(rules, start, log) && Allowed(rules, At(rules, start, log), e)
    ensures longer == log + [e] && Legal(rules, start, longer)
    ensures h == At(rules, start, longer) == After(rules, At(rules, start, log), e)
  {
    hide Allowed, After;
    longer := log + [e];
    assert longer[..|log|] == log;
    h := At(rules, start, longer);
  }

  /** One tag on the host, and nothing else. */
  function OneTag(ref: string, id: string): Host {
    Host(map[], map[], map[ref := id], {}, map[], map[], {}, map[])
  }

  /** Nobody else moves the tag, and no step of the log moves it either before its last. */
  predicate LeavesTag(id: string, log: seq<Event>) {
    forall e | e in log :: !e.Retagged? && (e.Resolved? || e.Unresolved? ==> e.tag == Some(id))
  }

  lemma LeavesLonger(id: string, log: seq<Event>, more: seq<Event>)
    requires LeavesTag(id, log) && LeavesTag(id, more)
    ensures LeavesTag(id, log + more)
  {
  }

  lemma StepsLeaveTag(id: string, ref: string, result: ImageResult)
    ensures LeavesTag(id, [Locked(0, ref), Read(0, false), Sighted(0, None)])
    ensures LeavesTag(id, [Resolved(0, result, Some(id)), Recorded(0, "mage", 0, true), Unlocked(0, true)])
  {
  }

  /** A step that changes only its process's stage. */
  lemma StageStep(rules: Rules, h: Host, e: Event)
    requires Allowed(rules, h, e) && (e.Read? || e.Sighted? || e.Inspect? || e.Listed?)
    ensures Inside(h, e.p) && After(rules, h, e) == h.(stages := h.stages[e.p := NextStage(rules, h, e)])
  {
    hide NextStage, Load, MayUntag;
  }

  lemma LockStep(rules: Rules, h: Host, p: Proc, ref: string)
    requires !Inside(h, p) && rules.path(ref) !in h.locks
    ensures Allowed(rules, h, Locked(p, ref))
    ensures After(rules, h, Locked(p, ref)) ==
            h.(locks := h.locks[rules.path(ref) := p], stages := h.stages[p := Entered(ref)])
  {
  }

  lemma ResolveStep(rules: Rules, h: Host, p: Proc, result: ImageResult, id: string)
    requires Inside(h, p) && h.stages[p].Checked? && h.stages[p].ref == result.reference
             && Tagged(h, result.reference, id)
    ensures Allowed(rules, h, Resolved(p, result, Some(id)))
    ensures var s := h.stages[p];
            After(rules, h, Resolved(p, result, Some(id))) ==
            h.(stages := h.stages[p := Settled(s.ref, s.found, result, s.seen.Some?)])
  {
    assert h.tags[result.reference := id] == h.tags;
  }

  /** The first owner's record, of a group that counts the tag as its own. */
  function OwnRecord(ref: string, id: string, c: Class, owner: string): Record {
    Record(2, c, ref, id, "", "", "", false, map[owner := 0], "")
  }

  lemma RecordStart(rules: Rules, h: Host, ref: string, id: string, c: Classified)
    requires rules.classify(ref) == Some(c) && Managed(c.imageClass) && Strings.TrimSpace(id) != ""
    requires Inside(h, 0) && h.stages[0] == Settled(ref, None, ImageResult(ref, "", "", "", id), false)
             && h.counters == map[]
    ensures var owner, e := OwnerName("mage", 0, 0, 1), Recorded(0, "mage", 0, true);
            && Allowed(rules, h, e)
            && After(rules, h, e) ==
               h.(store := h.store[rules.path(ref) := OwnRecord(ref, id, c.imageClass, owner)],
                  stages := h.stages[0 := Closing(ref)],
                  live := h.live[LeaseKey(ref, owner) := Lease(id, 0)],
                  names := h.names + {owner}, counters := map[0 := 1])
  {
    hide OwnerName, Strings.TrimSpace;
  }

  lemma UnlockStep(rules: Rules, h: Host, p: Proc)
    requires Inside(h, p)
    ensures Allowed(rules, h, Unlocked(p, true))
    ensures After(rules, h, Unlocked(p, true)) == h.(locks := h.locks - {FileOf(rules, h, p)}, stages := h.stages - {p})
  {
  }

  /** The host when the tag has been leased as the lease group's own. */
  function Leased(rules: Rules, ref: string, id: string, c: Class): Host {
    var owner := OwnerName("mage", 0, 0, 1);
    Host(map[rules.path(ref) := OwnRecord(ref, id, c, owner)], map[], map[ref := id], {}, map[],
         map[LeaseKey(ref, owner) := Lease(id, 0)], {owner}, map[0 := 1])
  }

  /** An acquirer whose look fails. */
  lemma LookFails(rules: Rules, ref: string, id: string) returns (h: Host, log: seq<Event>)
    ensures log == [Locked(0, ref), Read(0, false), Sighted(0, None)]
    ensures Legal(rules, OneTag(ref, id), log) && h == At(rules, OneTag(ref, id), log)
    ensures h == OneTag(ref, id).(locks := map[rules.path(ref) := 0], stages := map[0 := Checked(ref, None, None)])
    ensures Legal(rules, OneTag(ref, id), log[..2]) && MissesTag(At(rules, OneTag(ref, id), log[..2]), log[2])
  {
    hide Legal, At, After;
    var start := OneTag(ref, id);
    log := [];
    EmptyIsLegal(rules, start);
    LockStep(rules, start, 0, ref);
    h, log := Step(rules, start, log, Locked(0, ref));
    StageStep(rules, h, Read(0, false));
    h, log := Step(rules, start, log, Read(0, false));
    assert h.stages[0] == Looked(ref, None);
    ghost var before := log;
    StageStep(rules, h, Sighted(0, None));
    h, log := Step(rules, start, log, Sighted(0, None));
    assert log[..2] == before;
    assert h.stages == map[0 := Checked(ref, None, None)];
  }

  /** The acquirer's look fails, and the image it then reuses is leased as the lease group's own. */
  lemma AcquireMissing(rules: Rules, ref: string, id: string, c: Classified) returns (h: Host, log: seq<Event>)
    requires rules.classify(ref) == Some(c) && Managed(c.imageClass) && Strings.TrimSpace(id) != ""
    ensures Legal(rules, OneTag(ref, id), log) && h == At(rules, OneTag(ref, id), log)
    ensures h == Leased(rules, ref, id, c.imageClass)
    ensures LeavesTag(id, log) && |log| > 2
    ensures Legal(rules, OneTag(ref, id), log[..2]) && MissesTag(At(rules, OneTag(ref, id), log[..2]), log[2])
  {
    hide Legal, At, After, OwnerName, Strings.TrimSpace, Allowed, MissesTag, LeavesTag;
    var start, result := OneTag(ref, id), ImageResult(ref, "", "", "", id);
    var first: seq<Event>;
    h, first := LookFails(rules, ref, id);
    log := first;
    ResolveStep(rules, h, 0, result, id);
    h, log := Step(rules, start, log, Resolved(0, result, Some(id)));
    RecordStart(rules, h, ref, id, c);
    h, log := Step(rules, start, log, Recorded(0, "mage", 0, true));
    UnlockStep(rules, h, 0);
    h, log := Step(rules, start, log, Unlocked(0, true));
    assert log[..2] == first[..2] && log[2] == first[2];
    assert h.locks == map[] && h.stages == map[];
    var rest := [Resolved(0, result, Some(id)), Recorded(0, "mage", 0, true), Unlocked(0, true)];
    assert log == first + rest;
    assert LeavesTag(id, first) && LeavesTag(id, rest) by { StepsLeaveTag(id, ref, result); }
    LeavesLonger(id, first, rest);
  }

  lemma EmptyIsLegal(rules: Rules, start: Host)
    ensures Legal(rules, start, []) && At(rules, start, []) == start
  {
  }

  lemma DropStep(rules: Rules, h: Host, ref: string, r: Record, owner: string)
    requires Inside(h, 0) && h.stages[0] == Looked(ref, Some(r)) && owner in r.owners
    requires LeaseKey(ref, owner) in h.live ==> h.live[LeaseKey(ref, owner)].holder == 0
    ensures Allowed(rules, h, Dropped(0, owner))
    ensures After(rules, h, Dropped(0, owner)) ==
            h.(stages := h.stages[0 := Dropping(ref, r, {owner})], live := h.live - {LeaseKey(ref, owner)})
  {
  }

  /** A record of this reference is found as it was written. */
  lemma ReadStep(rules: Rules, h: Host, ref: string, id: string, c: Class, owner: string)
    requires Managed(c) && Inside(h, 0) && h.stages[0] == Entered(ref)
    requires rules.path(ref) in h.store && h.store[rules.path(ref)] == OwnRecord(ref, id, c, owner)
    ensures Allowed(rules, h, Read(0, false))
    ensures After(rules, h, Read(0, false)) ==
            h.(stages := h.stages[0 := Looked(ref, Some(OwnRecord(ref, id, c, owner)))])
  {
  }

  /** The only owner of such a group drops itself from the record. */
  lemma DropOwn(rules: Rules, ref: string, id: string, c: Class, start: Host, before: seq<Event>)
    returns (h: Host, log: seq<Event>)
    requires Managed(c) && Legal(rules, start, before) && At(rules, start, before) == Leased(rules, ref, id, c)
    ensures Legal(rules, start, log) && h == At(rules, start, log) && h.tags == map[ref := id] && h.used == {}
    ensures var owner := OwnerName("mage", 0, 0, 1);
            && log == before + [Locked(0, ref), Read(0, false), Dropped(0, owner)]
            && Inside(h, 0) && h.stages[0] == Dropping(ref, OwnRecord(ref, id, c, owner), {owner})
  {
    hide Legal, At, After, Allowed, OwnerName;
    var owner := OwnerName("mage", 0, 0, 1);
    var r := OwnRecord(ref, id, c, owner);
    log := before;
    LockStep(rules, Leased(rules, ref, id, c), 0, ref);
    h, log := Step(rules, start, log, Locked(0, ref));
    ReadStep(rules, h, ref, id, c, owner);
    h, log := Step(rules, start, log, Read(0, false));
    DropStep(rules, h, ref, r, owner);
    h, log := Step(rules, start, log, Dropped(0, owner));
  }

  /** Then it looks at the tag and at the containers. */
  lemma ReleaseOwn(rules: Rules, ref: string, id: string, c: Class, start: Host, before: seq<Event>)
    returns (h: Host, log: seq<Event>)
    requires Managed(c) && Legal(rules, start, before) && At(rules, start, before) == Leased(rules, ref, id, c)
    ensures Legal(rules, start, log) && h == At(rules, start, log)
    ensures log == before + [Locked(0, ref), Read(0, false), Dropped(0, OwnerName("mage", 0, 0, 1)),
                             Inspect(0, Some(id)), Listed(0, Free)]
    ensures Inside(h, 0) && h.stages[0].Unused? && h.stages[0].ref == ref
  {
    hide Legal, At, After, OwnerName, Leased;
    h, log := DropOwn(rules, ref, id, c, start, before);
    StageStep(rules, h, Inspect(0, Some(id)));
    h, log := Step(rules, start, log, Inspect(0, Some(id)));
    StageStep(rules, h, Listed(0, Free));
    h, log := Step(rules, start, log, Listed(0, Free));
  }

  lemma UntagStep(rules: Rules, h: Host, p: Proc)
    requires Inside(h, p) && h.stages[p].Unused?
    ensures Allowed(rules, h, Untagged(p, true, true))
            && h.stages[p].ref !in After(rules, h, Untagged(p, true, true)).tags
  {
  }

  /**
   One failed look is enough: a tag that was there before the lease group, and that
   nobody moved, is removed when the group's only owner releases it.
   */
  lemma MissedTagIsRemoved(rules: Rules, ref: string, id: string, c: Classified) returns (log: seq<Event>)
    requires rules.classify(ref) == Some(c) && Managed(c.imageClass) && Strings.TrimSpace(id) != ""
    ensures IsStart(OneTag(ref, id)) && Legal(rules, OneTag(ref, id), log) && LeavesTag(id, log)
    ensures |log| > 2 && log[|log| - 1] == Untagged(0, true, true)
    ensures ref !in At(rules, OneTag(ref, id), log).tags
    ensures Legal(rules, OneTag(ref, id), log[..2]) && MissesTag(At(rules, OneTag(ref, id), log[..2]), log[2])
  {
    hide Legal, At, After, Allowed, OwnerName, Strings.TrimSpace, MissesTag, Leased;
    var start := OneTag(ref, id);
    var h: Host, first: seq<Event>;
    h, first := AcquireMissing(rules, ref, id, c);
    h, log := ReleaseOwn(rules, ref, id, c.imageClass, start, first);
    UntagStep(rules, h, 0);
    h, log := Step(rules, start, log, Untagged(0, true, true));
    assert log[..2] == first[..2] && log[2] == first[2];
  }
}
