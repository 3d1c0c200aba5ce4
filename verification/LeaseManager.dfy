/**
 The image lease manager of one process. Between any two of its steps the other
 processes, and whoever else uses docker, may do anything the protocol allows;
 every step it takes itself is one the protocol allows.
 */
module LeaseManager {
  import opened Wrappers
  import opened Strings
  import opened OwnerNames
  import opened LeaseProtocol
  import opened LeaseSafety

  /** What the name of a local image says of it. */
  datatype LocalIdentity = LocalIdentity(platform: string, revision: string, recipe: string, fromUpstream: bool,
      fromRecipe: bool)

  /** What docker says of an image. */
  datatype Metadata = Metadata(id: string, platform: string)

  function IdOf(item: Option<Metadata>): Option<string> {
    match item
    case None => None
    case Some(m) => Some(m.id)
  }

  /** A lease as its holder keeps it. */
  datatype ImageLease = ImageLease(result: ImageResult, owner: string)

  // ---------------------------------------------------------------- what a process relies on

  /** A process keeps no lease it did not have, and leases named before are not replaced. */
  ghost predicate Calm(me: Proc, h: Host, h': Host) {
    && h.names <= h'.names
    && (forall k | k in h'.live && k.owner in h.names :: k in h.live && h'.live[k] == h.live[k])
    && (forall k | k in h'.live && h'.live[k].holder == me :: k in h.live && h'.live[k] == h.live[k])
  }

  /** The record file, the leases and, where it is guarded, the tag of a process's critical section. */
  ghost predicate SectionKept(rules: Rules, s: Stage, h: Host, h': Host) {
    && (rules.path(s.ref) in h.store <==> rules.path(s.ref) in h'.store)
    && (rules.path(s.ref) in h.store ==> h'.store[rules.path(s.ref)] == h.store[rules.path(s.ref)])
    && (forall k | k in h.live && k.reference == s.ref :: k in h'.live && h'.live[k] == h.live[k])
    && (Guarded(s, s.ref) && s.ref in h.tags ==> s.ref in h'.tags && h'.tags[s.ref] == h.tags[s.ref])
  }

  /** What other processes' steps leave to this one: its section and its sequence number are its own. */
  ghost predicate Untouched(rules: Rules, me: Proc, h: Host, h': Host) {
    && (Inside(h, me) <==> Inside(h', me))
    && (Inside(h, me) ==> h'.stages[me] == h.stages[me] && SectionKept(rules, h.stages[me], h, h'))
    && Count(h', me) == Count(h, me)
    && Calm(me, h, h')
  }

  predicate ByOthers(me: Proc, e: Event) {
    ByProcess(e) || e.GaveUp? ==> e.p != me
  }

  lemma CalmTransitive(me: Proc, a: Host, b: Host, c: Host)
    requires Calm(me, a, b) && Calm(me, b, c)
    ensures Calm(me, a, c)
  {
  }

  lemma UntouchedTransitive(rules: Rules, me: Proc, a: Host, b: Host, c: Host)
    requires Untouched(rules, me, a, b) && Untouched(rules, me, b, c)
    ensures Untouched(rules, me, a, c)
  {
    hide Calm;
    CalmTransitive(me, a, b, c);
  }

  lemma StepIsCalm(rules: Rules, me: Proc, h: Host, e: Event)
    requires Sound(rules, h) && Allowed(rules, h, e) && !e.Recorded?
    ensures Calm(me, h, After(rules, h, e))
  {
    hide NextStage, StoreAfter, TagsAfter, StageAgrees, HoldsLock, LeaseRecorded, Generated;
  }

  lemma FailedRecordingIsCalm(rules: Rules, me: Proc, h: Host, e: Event)
    requires Allowed(rules, h, e) && e.Recorded? && !e.ok
    ensures Calm(me, h, After(rules, h, e))
  {
    hide NextStage, StoreAfter, TagsAfter, NewOwner;
  }

  lemma RecordingIsCalm(rules: Rules, me: Proc, h: Host, e: Event)
    requires Sound(rules, h) && Allowed(rules, h, e) && e.Recorded? && e.p != me
    ensures Calm(me, h, After(rules, h, e))
  {
    hide NextStage, StoreAfter, TagsAfter, StageAgrees, HoldsLock, LeaseRecorded, Generated, NewOwner;
    assert NewOwner(h, e) !in h.names by {
      if NewOwner(h, e) in h.names {
        NameIsNew(h, e, NewOwner(h, e));
      }
    }
  }

  /** A step of somebody else leaves alone what a process relies on. */
  lemma OthersLeaveAlone(rules: Rules, me: Proc, h: Host, e: Event)
    requires Sound(rules, h) && Allowed(rules, h, e) && ByOthers(me, e)
    ensures Untouched(rules, me, h, After(rules, h, e))
  {
    hide Calm, Sound, SectionKept, NextStage, StoreAfter, TagsAfter, LiveAfter;
    if e.Recorded? {
      RecordingIsCalm(rules, me, h, e);
    } else {
      StepIsCalm(rules, me, h, e);
    }
    if Inside(h, me) {
      OthersKeepSection(rules, me, h, e);
    }
  }

  lemma OthersKeepSection(rules: Rules, me: Proc, h: Host, e: Event)
    requires Sound(rules, h) && Allowed(rules, h, e) && ByOthers(me, e) && Inside(h, me)
    ensures SectionKept(rules, h.stages[me], h, After(rules, h, e))
  {
    hide Allowed, After, Sound, SameFor;
    StepIsInside(rules, h, e);
    if ByProcess(e) && !e.Locked? {
      SectionsAreApart(rules, h, e.p, me);
    }
    var s := h.stages[me];
    StepIsLocal(rules, h, e, s.ref);
    StepKeepsGuardedTag(rules, h, e, me);
    StepKeepsLeasesOf(rules, h, e, s.ref);
    SameForFile(rules, h, After(rules, h, e), s.ref);
  }

  lemma SameForFile(rules: Rules, h: Host, h': Host, ref: string)
    requires SameFor(rules, h, h', ref)
    ensures rules.path(ref) in h.store <==> rules.path(ref) in h'.store
    ensures rules.path(ref) in h.store ==> h'.store[rules.path(ref)] == h.store[rules.path(ref)]
  {
  }

  lemma StepKeepsLeasesOf(rules: Rules, h: Host, e: Event, ref: string)
    requires Allowed(rules, h, e)
    requires ByProcess(e) && !e.Locked? ==> Inside(h, e.p) && h.stages[e.p].ref != ref
    ensures forall k | k in h.live && k.reference == ref ::
            k in After(rules, h, e).live && After(rules, h, e).live[k] == h.live[k]
  {
    hide StoreAfter, TagsAfter, NewOwner, Strings.TrimSpace, SameImage, Load, LiveOwners;
  }

  // ---------------------------------------------------------------- what a process leaves behind

  /** A failed release leaves a record to look at: as it was, or without the owners and with the failure noted. */
  ghost predicate Retained(rules: Rules, h: Host, ref: string, r: Record, gone: set<string>) {
    && rules.path(ref) in h.store
    && var now := h.store[rules.path(ref)];
    && (Normal(rules, now) == r || now == Without(r, gone).(lastError := now.lastError))
  }

  /** The file of a reference holds another reference's record, or one of an unknown version. */
  predicate RecordIsForeign(rules: Rules, h: Host, ref: string) {
    && rules.path(ref) in h.store
    && var r := h.store[rules.path(ref)];
    && (r.reference != ref || (r.version != 1 && r.version != 2))
  }

  /** What docker, the file system or a timeout refused a process that releases, of a record of this image. */
  predicate Thwarts(e: Event, p: Proc, imageId: string) {
    match e
    case GaveUp(q, _, _) => q == p
    case Read(q, failed) => q == p && failed
    case Kept(q, ok) => q == p && !ok
    case Deleted(q, ok) => q == p && !ok
    case Inspect(q, answer) => q == p && answer.Some? && answer.value != imageId
    case Listed(q, usage) => q == p && (usage.NoAnswer? || usage.InUse?)
    case Untagged(q, ok, _) => q == p && !ok
    case _ => false
  }

  ghost predicate Thwarted(run: seq<Event>, since: nat, p: Proc, imageId: string) {
    exists i | since <= i < |run| :: Thwarts(run[i], p, imageId)
  }

  lemma StillThwarted(run: seq<Event>, longer: seq<Event>, since: nat, before: nat, p: Proc, imageId: string)
    requires Thwarted(run, since, p, imageId) && before <= since && run <= longer
    ensures Thwarted(longer, before, p, imageId)
  {
    hide Thwarts;
    var i :| since <= i < |run| && Thwarts(run[i], p, imageId);
    assert longer[i] == run[i];
  }

  lemma JustThwarted(run: seq<Event>, since: nat, p: Proc, imageId: string)
    requires since < |run| && Thwarts(run[|run| - 1], p, imageId)
    ensures Thwarted(run, since, p, imageId)
  {
    hide Thwarts;
  }

  /** What keeps a process from a lease on a reference: one of its steps that failed, or a result that will not do. */
  predicate Declines(rules: Rules, h: Host, e: Event, p: Proc, ref: string) {
    match e
    case GaveUp(q, _, _) => q == p
    case Read(q, failed) => q == p && failed
    case Unresolved(q, _) => q == p
    case Recorded(q, _, _, ok) => q == p && !ok
    case Resolved(q, result, _) =>
      && q == p
      && (Strings.TrimSpace(result.imageId) == "" ||
          (rules.path(ref) in h.store && IsOfAnother(h.store[rules.path(ref)], result)))
    case _ => false
  }

  /** A record that is not of the image docker resolves, field by field. */
  predicate IsOfAnother(r: Record, result: ImageResult) {
    || r.reference != result.reference || r.imageId != result.imageId || r.revision != result.revision
    || r.recipe != result.recipe || r.platform != result.platform
  }

  ghost predicate Declined(rules: Rules, h: Host, run: seq<Event>, since: nat, p: Proc, ref: string) {
    || rules.classify(ref).None? || RecordIsForeign(rules, h, ref)
    || exists i | since <= i < |run| :: Declines(rules, h, run[i], p, ref)
  }

  lemma StillDeclined(rules: Rules, h: Host, h': Host, run: seq<Event>, longer: seq<Event>, since: nat, before: nat,
                      p: Proc, ref: string)
    requires Declined(rules, h, run, since, p, ref) && before <= since && run <= longer
    requires rules.path(ref) in h.store ==>
               rules.path(ref) in h'.store && h'.store[rules.path(ref)] == h.store[rules.path(ref)]
    ensures Declined(rules, h', longer, before, p, ref)
  {
    hide IsOfAnother, Strings.TrimSpace;
    if rules.classify(ref).Some? && !RecordIsForeign(rules, h, ref) {
      var i :| since <= i < |run| && Declines(rules, h, run[i], p, ref);
      assert longer[i] == run[i] && Declines(rules, h', longer[i], p, ref);
    }
  }

  lemma JustDeclined(rules: Rules, h: Host, run: seq<Event>, since: nat, i: nat, p: Proc, ref: string)
    requires since <= i < |run| && Declines(rules, h, run[i], p, ref)
    ensures Declined(rules, h, run, since, p, ref)
  {
    hide Declines;
  }

  /** A write with how it turned out. */
  function WithOutcome(step: Event, ok: bool): Event {
    match step
    case Kept(p, _) => Kept(p, ok)
    case Noted(p, message, _) => Noted(p, message, ok)
    case other => other
  }

  /** How one reference was reconciled: the record as it was read, and how far the run was when it was done. */
  datatype Visit = Visit(ok: bool, before: Option<Record>, at: nat)

  function Failures(visits: seq<Visit>): nat {
    if visits == [] then 0 else Failures(visits[..|visits| - 1]) + if visits[|visits| - 1].ok then 0 else 1
  }

  class LeaseManager {
    const rules: Rules
    const me: Proc
    const identify: string -> Option<LocalIdentity>
    const platformOf: string -> string // of an image, by its ID
    ghost const start: Host
    ghost var log: seq<Event>
    var host: Host

    ghost predicate Valid()
      reads this
    {
      IsStart(start) && Legal(rules, start, log) && At(rules, start, log) == host && Sound(rules, host)
    }

    constructor (r: Rules, process: Proc, names: string -> Option<LocalIdentity>, platforms: string -> string, h: Host)
      requires IsStart(h)
      ensures Valid() && rules == r && me == process && identify == names && platformOf == platforms
      ensures host == h && log == []
    {
      rules, me, identify, platformOf := r, process, names, platforms;
      start, log, host := h, [], h;
      new;
      StartIsSound(r, h);
    }

    method Take(e: Event)
      requires Valid() && Allowed(rules, host, e)
      modifies this
      ensures Valid() && host == After(rules, old(host), e) && log == old(log) + [e]
    {
      hide Sound, Allowed, After;
      StepKeepsSound(rules, host, e);
      assert (log + [e])[..|log|] == log;
      log := log + [e];
      host := After(rules, host, e);
    }

    /** Any number of steps of other processes and other users of docker. */
    method Others()
      requires Valid()
      modifies this
      ensures Valid() && Untouched(rules, me, old(host), host) && old(log) <= log
      ensures exists more :: log == old(log) + more && forall e | e in more :: ByOthers(me, e)
    {
      hide Sound, Allowed, After, Untouched, Legal, At;
      StaysUntouched(host);
      ghost var more: seq<Event> := [];
      assert log == log + more;
      var steps: nat := *;
      while steps > 0
        invariant Valid() && Untouched(rules, me, old(host), host)
        invariant log == old(log) + more && forall e | e in more :: ByOthers(me, e)
      {
        assert ByOthers(me, Containers({}));
        var e: Event :| ByOthers(me, e);
        if Allowed(rules, host, e) {
          OthersLeaveAlone(rules, me, host, e);
          UntouchedTransitive(rules, me, old(host), host, After(rules, host, e));
          Take(e);
          more := more + [e];
        }
        steps := steps - 1;
      }
    }

    lemma StaysUntouched(h: Host)
      ensures Untouched(rules, me, h, h)
    {
    }

    /** The process is in its critical section, this far. */
    ghost predicate Is(s: Stage)
      reads this
    {
      Inside(host, me) && host.stages[me] == s
    }

    function File(ref: string): string {
      rules.path(ref)
    }

    // -------------------------------------------------------------- lock, read, write, remove

    /** Makes the lock directory, or gives up; a lock that is there is waited for, never taken away. */
    method Lock(reference: string) returns (ok: bool)
      requires Valid() && !Inside(host, me)
      modifies this
      ensures Valid() && Calm(me, old(host), host) && old(log) <= log
      ensures if ok then Is(Entered(reference))
              else !Inside(host, me) && |old(log)| < |log| && log[|log| - 1].GaveUp? && log[|log| - 1].p == me
    {
      hide Sound, StoreAfter, TagsAfter, LiveAfter, Legal, At, SectionKept, Calm;
      StaysUntouched(host);
      var patience: nat := *;
      while true
        invariant Valid() && !Inside(host, me) && Calm(me, old(host), host) && old(log) <= log
        decreases patience
      {
        ghost var before := host;
        Others();
        CalmTransitive(me, old(host), before, host);
        if rules.path(reference) !in host.locks {
          var made: bool := *;
          if !made {
            before := host;
            GiveUp(reference, false);
            CalmTransitive(me, old(host), before, host);
            return false;
          }
          StepIsCalm(rules, me, host, Locked(me, reference));
          CalmTransitive(me, old(host), host, After(rules, host, Locked(me, reference)));
          Take(Locked(me, reference));
          return true;
        }
        if patience == 0 {
          before := host;
          GiveUp(reference, true);
          CalmTransitive(me, old(host), before, host);
          return false;
        }
        patience := patience - 1;
      }
    }

    method GiveUp(reference: string, timedOut: bool)
      requires Valid() && !Inside(host, me) && (timedOut ==> File(reference) in host.locks)
      modifies this
      ensures Valid() && !Inside(host, me) && Calm(me, old(host), host)
      ensures log == old(log) + [GaveUp(me, reference, timedOut)]
    {
      StepIsCalm(rules, me, host, GaveUp(me, reference, timedOut));
      Take(GaveUp(me, reference, timedOut));
    }

    /** Takes a step of its own that records no owner. */
    method Act(e: Event)
      requires Valid() && ByProcess(e) && e.p == me && !e.Recorded? && Allowed(rules, host, e)
      modifies this
      ensures Valid() && Calm(me, old(host), host) && host == After(rules, old(host), e) && log == old(log) + [e]
    {
      hide Sound, Allowed, After, Calm, Legal, At;
      StepIsCalm(rules, me, host, e);
      Take(e);
    }

    method Unlock(reference: string)
      requires Valid() && Inside(host, me) && host.stages[me].ref == reference
      modifies this
      ensures Valid() && !Inside(host, me) && Calm(me, old(host), host) && old(log) <= log
      ensures SectionKept(rules, old(host.stages)[me], old(host), host)
    {
      hide Sound, Legal, At, Calm;
      Others();
      ghost var before := host;
      var removed: bool := *;
      Act(Unlocked(me, removed));
      CalmTransitive(me, old(host), before, host);
    }

    /** The record of a reference; a record of another reference in the same file is an error. */
    method ReadRecord(reference: string) returns (loaded: Loaded)
      requires Valid() && Is(Entered(reference))
      modifies this
      ensures Valid() && Calm(me, old(host), host) && old(log) <= log
      ensures match loaded
              case Missing => Is(Looked(reference, None))
              case Broken =>
                && Is(Closing(reference)) && |old(log)| < |log|
                && (RecordIsForeign(rules, host, reference) || log[|log| - 1] == Read(me, true))
              case Found(r) => Is(Looked(reference, Some(r))) && r.reference == reference
    {
      hide Sound, Legal, At, Calm, TagsAfter, LiveAfter;
      Others();
      ghost var before := host;
      var failed: bool := *;
      loaded := if failed then Broken else Load(rules, host.store, reference);
      Act(Read(me, failed));
      CalmTransitive(me, old(host), before, host);
    }

    /** Publishes a record with one rename, or leaves the file as it was. */
    method Write(reference: string, state: Record, step: Event) returns (ok: bool)
      requires Valid() && Inside(host, me) && host.stages[me].ref == reference
      requires (step.Kept? || step.Noted?) && step.ok && step.p == me && Allowed(rules, host, step)
      requires NewRecord(rules, host, step) == Some(state)
      modifies this
      ensures Valid() && Is(Closing(reference)) && Calm(me, old(host), host) && old(log) <= log
      ensures if ok then File(reference) in host.store && host.store[File(reference)] == state
              else SameFile(old(host), host, reference)
      ensures |old(log)| < |log| && log[|log| - 1] == WithOutcome(step, ok)
    {
      hide Sound, Legal, At, Calm, TagsAfter, LiveAfter, Without, MayUntag, LiveOwners, Strings.TrimSpace;
      Others();
      ghost var before := host;
      ok := *;
      Act(WithOutcome(step, ok));
      CalmTransitive(me, old(host), before, host);
    }

    ghost predicate SameFile(h: Host, h': Host, ref: string) {
      && (File(ref) in h.store <==> File(ref) in h'.store)
      && (File(ref) in h.store ==> h'.store[File(ref)] == h.store[File(ref)])
    }

    /** The record may go: its tag is gone, or it has no owners and a tag that is not the lease group's. */
    predicate MayDelete(s: Stage) {
      s.Removable? || (s.Dropping? && s.record.owners.Keys <= s.gone && !MayUntag(s.record, s.gone))
    }

    method Remove(reference: string) returns (ok: bool)
      requires Valid() && Inside(host, me) && host.stages[me].ref == reference && MayDelete(host.stages[me])
      modifies this
      ensures Valid() && Is(Closing(reference)) && Calm(me, old(host), host) && old(log) <= log
      ensures if ok then File(reference) !in host.store else SameFile(old(host), host, reference)
      ensures |old(log)| < |log| && log[|log| - 1] == Deleted(me, ok)
    {
      hide Sound, Legal, At, Calm, TagsAfter, LiveAfter, MayUntag;
      Others();
      ghost var before := host;
      ok := *;
      Act(Deleted(me, ok));
      CalmTransitive(me, old(host), before, host);
    }

    // -------------------------------------------------------------- docker

    /** What docker says of a reference; it may fail to answer. */
    method InspectImage(reference: string) returns (item: Option<Metadata>)
      requires Valid() && Inside(host, me)
      modifies this
      ensures Valid() && Untouched(rules, me, old(host), host)
      ensures item.Some? ==> item.value.platform == platformOf(item.value.id) && Tagged(host, reference, item.value.id)
      ensures old(log) <= log
    {
      hide Sound, Legal, At, Untouched;
      Others();
      var answers: bool := *;
      if !answers || reference !in host.tags {
        return None;
      }
      item := Some(Metadata(host.tags[reference], platformOf(host.tags[reference])));
    }

    /** Looks at the tag that the last owner may delete; from here on nobody else moves it. */
    method InspectLeased(reference: string) returns (answer: Option<string>)
      requires Valid() && Inside(host, me) && host.stages[me].Dropping? && host.stages[me].ref == reference
      requires MayUntag(host.stages[me].record, host.stages[me].gone)
      modifies this
      ensures Valid() && Calm(me, old(host), host) && SameFile(old(host), host, reference) && old(log) <= log
      ensures var s := old(host.stages)[me];
              Is(if answer.Some? then Inspected(reference, s.record, s.gone, answer.value)
                 else Removable(reference, s.record, s.gone))
      ensures |old(log)| < |log| && log[|log| - 1] == Inspect(me, answer)
    {
      hide Sound, Legal, At, Calm, MayUntag;
      Others();
      ghost var before := host;
      var answers: bool := *;
      answer := if answers && reference in host.tags then Some(host.tags[reference]) else None;
      Act(Inspect(me, answer));
      CalmTransitive(me, old(host), before, host);
    }

    method ListContainers(reference: string) returns (usage: Usage)
      requires Valid() && Inside(host, me) && host.stages[me].Inspected? && host.stages[me].ref == reference
      requires host.stages[me].id == host.stages[me].record.imageId
      modifies this
      ensures Valid() && Calm(me, old(host), host) && SameFile(old(host), host, reference) && old(log) <= log
      ensures var s := old(host.stages)[me];
              Is(if usage.Free? then Unused(reference, s.record, s.gone)
                 else Refused(reference, s.record, s.gone))
      ensures |old(log)| < |log| && log[|log| - 1] == Listed(me, usage)
    {
      hide Sound, Legal, At, Calm, MayUntag;
      Others();
      ghost var before := host;
      var answers: bool := *;
      usage := if !answers then NoAnswer else if host.stages[me].record.imageId in host.used then InUse else Free;
      Act(Listed(me, usage));
      CalmTransitive(me, old(host), before, host);
    }

    method RemoveImage(reference: string) returns (ok: bool)
      requires Valid() && Inside(host, me) && host.stages[me].Unused? && host.stages[me].ref == reference
      modifies this
      ensures Valid() && Calm(me, old(host), host) && SameFile(old(host), host, reference) && old(log) <= log
      ensures var s := old(host.stages)[me];
              Is(if ok then Removable(reference, s.record, s.gone) else Refused(reference, s.record, s.gone))
      ensures |old(log)| < |log| && log[|log| - 1].Untagged? && log[|log| - 1].p == me && log[|log| - 1].ok == ok
    {
      hide Sound, Legal, At, Calm, MayUntag;
      Others();
      ghost var before := host;
      ok := *;
      var gone: bool := *;
      Act(Untagged(me, ok, ok || gone));
      CalmTransitive(me, old(host), before, host);
    }

    // -------------------------------------------------------------- release

    /** Notes why a record without owners was kept. */
    method NoteFailure(reference: string, state: Record, message: string)
      requires Valid() && Inside(host, me) && host.stages[me].ref == reference
      requires var s := host.stages[me]; s.Refused? || (s.Inspected? && s.id != s.record.imageId)
      requires state == Without(host.stages[me].record, host.stages[me].gone)
      requires OnDisk(rules, host, reference, host.stages[me].record)
      modifies this
      ensures Valid() && Inside(host, me) && host.stages[me].ref == reference && Calm(me, old(host), host)
              && old(log) <= log
      ensures var s := old(host.stages)[me]; Retained(rules, host, reference, s.record, s.gone)
    {
      hide Sound, Legal, At, Calm, StoreAfter, TagsAfter, LiveAfter, After, Normal;
      var noted := state.(lastError := message);
      var written := Write(reference, noted, Noted(me, message, true));
    }

    /** Whether the tag of the leased image could be removed, if no container uses the image. */
    method RemoveUnused(reference: string) returns (failure: Option<string>)
      requires Valid() && Inside(host, me) && host.stages[me].Inspected? && host.stages[me].ref == reference
      requires host.stages[me].id == host.stages[me].record.imageId
      modifies this
      ensures Valid() && Calm(me, old(host), host) && SameFile(old(host), host, reference) && old(log) <= log
      ensures var s := old(host.stages)[me];
              Is(if failure.None? then Removable(reference, s.record, s.gone)
                 else Refused(reference, s.record, s.gone))
      ensures failure.Some? ==> Thwarted(log, |old(log)|, me, old(host.stages)[me].record.imageId)
    {
      hide Sound, Legal, At, Calm, Allowed, Thwarted;
      var usage := ListContainers(reference);
      ghost var before := host;
      if !usage.Free? {
        JustThwarted(log, |old(log)|, me, old(host.stages)[me].record.imageId);
        return Some(if usage.InUse? then "image is used by containers" else "inspect image containers");
      }
      var removed := RemoveImage(reference);
      CalmTransitive(me, old(host), before, host);
      if !removed {
        JustThwarted(log, |old(log)|, me, old(host.stages)[me].record.imageId);
      }
      failure := if removed then None else Some("docker image rm");
    }

    lemma SameFileOnDisk(h: Host, h': Host, ref: string, r: Record, gone: set<string>)
      requires OnDisk(rules, h, ref, r) && SameFile(h, h', ref)
      ensures OnDisk(rules, h', ref, r) && Retained(rules, h', ref, r, gone)
    {
    }

    /** Deletes the tag of a record without owners if it may, and then the record; a failure is noted in the record. */
    method ReleaseWithoutOwner(reference: string, state: Record) returns (ok: bool)
      requires Valid() && Inside(host, me) && host.stages[me].Dropping? && host.stages[me].ref == reference
      requires var s := host.stages[me]; s.record.owners.Keys <= s.gone && state == Without(s.record, s.gone)
      requires OnDisk(rules, host, reference, host.stages[me].record)
      modifies this
      ensures Valid() && Inside(host, me) && host.stages[me].ref == reference && Calm(me, old(host), host)
              && old(log) <= log
      ensures if ok then File(reference) !in host.store
              else var s := old(host.stages)[me]; Retained(rules, host, reference, s.record, s.gone)
      ensures !ok ==> Thwarted(log, |old(log)|, me, old(host.stages)[me].record.imageId)
    {
      hide Sound, Legal, At, Calm, Allowed, OnDisk, SameFile, Retained, Thwarted;
      ghost var r, gone := host.stages[me].record, host.stages[me].gone;
      if state.preExisting || !Managed(state.imageClass) {
        ok := RemoveRecord(reference);
        return;
      }
      var item := InspectLeased(reference);
      ghost var before, looked := host, log;
      SameFileOnDisk(old(host), before, reference, r, gone);
      if item.None? {
        ok := RemoveRecord(reference);
        if !ok {
          StillThwarted(log, log, |looked|, |old(log)|, me, r.imageId);
        }
      } else if item.value != state.imageId {
        JustThwarted(log, |old(log)|, me, r.imageId);
        NoteFailure(reference, state, "reference now resolves to " + item.value + ", leased " + state.imageId);
        ok := false;
        StillThwarted(looked, log, |old(log)|, |old(log)|, me, r.imageId);
      } else {
        ok := FinishRemoval(reference, state);
        if !ok {
          StillThwarted(log, log, |looked|, |old(log)|, me, r.imageId);
        }
      }
      CalmTransitive(me, old(host), before, host);
    }

    method RemoveRecord(reference: string) returns (ok: bool)
      requires Valid() && Inside(host, me) && host.stages[me].ref == reference && MayDelete(host.stages[me])
      requires OnDisk(rules, host, reference, host.stages[me].record)
      modifies this
      ensures Valid() && Inside(host, me) && host.stages[me].ref == reference && Calm(me, old(host), host)
              && old(log) <= log
      ensures if ok then File(reference) !in host.store
              else var s := old(host.stages)[me]; Retained(rules, host, reference, s.record, s.gone)
      ensures !ok ==> Thwarted(log, |old(log)|, me, old(host.stages)[me].record.imageId)
    {
      hide Sound, Legal, At, Calm, Allowed, OnDisk, SameFile, Retained, Thwarted;
      ghost var r, gone := host.stages[me].record, host.stages[me].gone;
      ok := Remove(reference);
      if !ok {
        JustThwarted(log, |old(log)|, me, r.imageId);
        SameFileOnDisk(old(host), host, reference, r, gone);
      }
    }

    method FinishRemoval(reference: string, state: Record) returns (ok: bool)
      requires Valid() && Inside(host, me) && host.stages[me].Inspected? && host.stages[me].ref == reference
      requires host.stages[me].id == host.stages[me].record.imageId
      requires state == Without(host.stages[me].record, host.stages[me].gone)
      requires OnDisk(rules, host, reference, host.stages[me].record)
      modifies this
      ensures Valid() && Inside(host, me) && host.stages[me].ref == reference && Calm(me, old(host), host)
              && old(log) <= log
      ensures if ok then File(reference) !in host.store
              else var s := old(host.stages)[me]; Retained(rules, host, reference, s.record, s.gone)
      ensures !ok ==> Thwarted(log, |old(log)|, me, old(host.stages)[me].record.imageId)
    {
      hide Sound, Legal, At, Calm, Allowed, OnDisk, SameFile, Retained, Thwarted;
      ghost var r, gone := host.stages[me].record, host.stages[me].gone;
      var failure := RemoveUnused(reference);
      ghost var before, tried := host, log;
      SameFileOnDisk(old(host), before, reference, r, gone);
      if failure.Some? {
        NoteFailure(reference, state, failure.value);
        ok := false;
        StillThwarted(tried, log, |old(log)|, |old(log)|, me, r.imageId);
      } else {
        ok := RemoveRecord(reference);
        if !ok {
          StillThwarted(log, log, |tried|, |old(log)|, me, r.imageId);
        }
      }
      CalmTransitive(me, old(host), before, host);
    }

    /** What was read is on disk while the lock is held. */
    lemma ReadIsOnDisk(ref: string, found: Option<Record>)
      requires Valid() && Is(Looked(ref, found))
      ensures FoundAgrees(rules, host, ref, found)
      ensures found.Some? ==> Normal(rules, found.value) == found.value
    {
      hide Legal, At, LeaseRecorded, Generated, HoldsLock;
      assert StageAgrees(rules, host, host.stages[me]);
    }

    /** Takes one owner out of the local copy of the record. */
    method DropOwner(reference: string, state: Record, owner: string) returns (left: Record)
      requires Valid() && Is(Looked(reference, Some(state))) && owner in state.owners
      requires LeaseKey(reference, owner) in host.live ==> host.live[LeaseKey(reference, owner)].holder == me
      modifies this
      ensures Valid() && Calm(me, old(host), host) && Is(Dropping(reference, state, {owner}))
      ensures left == Without(state, {owner}) && OnDisk(rules, host, reference, state) && old(log) <= log
    {
      hide Sound, Legal, At, Calm, LiveAfter, Normal;
      ReadIsOnDisk(reference, Some(state));
      left := state.(owners := state.owners - {owner});
      Act(Dropped(me, owner));
    }

    /** Writes the record without the dropped owners, or finishes it if none is left. */
    method WriteOrRelease(reference: string, left: Record) returns (ok: bool)
      requires Valid() && Inside(host, me) && host.stages[me].Dropping? && host.stages[me].ref == reference
      requires left == Without(host.stages[me].record, host.stages[me].gone)
      requires OnDisk(rules, host, reference, host.stages[me].record)
      modifies this
      ensures Valid() && Inside(host, me) && host.stages[me].ref == reference && Calm(me, old(host), host)
              && old(log) <= log
      ensures var s := old(host.stages)[me];
              if !ok then Retained(rules, host, reference, s.record, s.gone)
              else if left.owners == map[] then File(reference) !in host.store
              else File(reference) in host.store && host.store[File(reference)] == left
      ensures !ok ==> Thwarted(log, |old(log)|, me, old(host.stages)[me].record.imageId)
    {
      hide Sound, Legal, At, Calm, StoreAfter, TagsAfter, LiveAfter, After, Normal, SameFile, Retained, Thwarted;
      ghost var r, gone := host.stages[me].record, host.stages[me].gone;
      LeftOwners(r, gone);
      if left.owners != map[] {
        ok := Write(reference, left, Kept(me, true));
        if !ok {
          JustThwarted(log, |old(log)|, me, r.imageId);
          SameFileOnDisk(old(host), host, reference, r, gone);
        }
      } else {
        ok := ReleaseWithoutOwner(reference, left);
      }
    }

    lemma LeftOwners(r: Record, gone: set<string>)
      ensures Without(r, gone).owners == map[] <==> r.owners.Keys <= gone
    {
      var left := Without(r, gone).owners;
      assert left.Keys == r.owners.Keys - gone;
      if r.owners.Keys <= gone {
        assert left == map[];
      } else {
        var owner :| owner in r.owners.Keys && owner !in gone;
        assert owner in left;
      }
    }

    /** Nobody holds a lease the record file does not show. */
    lemma NotRecordedNotLive(ref: string, owner: string)
      requires Valid()
      requires File(ref) in host.store ==> owner !in host.store[File(ref)].owners
      ensures LeaseKey(ref, owner) !in host.live
    {
      hide Legal, At, StageAgrees, Generated, HoldsLock;
      var k := LeaseKey(ref, owner);
      assert k in host.live ==> LeaseRecorded(rules, host, k);
    }

    /** What releasing an owner comes to, given the record that was read under the lock. */
    ghost predicate OwnerDropped(reference: string, owner: string, ok: bool, before: Option<Record>, h: Host) {
      match before
      case None => ok ==> File(reference) !in h.store
      case Some(r) =>
        if owner !in r.owners then !ok && OnDisk(rules, h, reference, r)
        else if !ok then Retained(rules, h, reference, r, {owner})
        else if r.owners.Keys == {owner} then File(reference) !in h.store
        else File(reference) in h.store && h.store[File(reference)] == Without(r, {owner})
    }

    /** Drops an owner of the record that was read. */
    method ReleaseOwner(reference: string, state: Record, owner: string) returns (ok: bool)
      requires Valid() && Is(Looked(reference, Some(state))) && owner in state.owners
      requires LeaseKey(reference, owner) in host.live ==> host.live[LeaseKey(reference, owner)].holder == me
      modifies this
      ensures Valid() && Inside(host, me) && host.stages[me].ref == reference && Calm(me, old(host), host)
      ensures OwnerDropped(reference, owner, ok, Some(state), host)
      ensures old(log) <= log && (!ok ==> Thwarted(log, |old(log)|, me, state.imageId))
    {
      hide Sound, Legal, At, Retained, OnDisk, Calm, Allowed, After, Thwarted;
      var left := DropOwner(reference, state, owner);
      ghost var dropped, since := host, |log|;
      LeftOwners(state, {owner});
      ok := WriteOrRelease(reference, left);
      CalmTransitive(me, old(host), dropped, host);
      if !ok {
        StillThwarted(log, log, since, |old(log)|, me, state.imageId);
      }
    }

    lemma StillMine(h: Host, k: LeaseKey)
      requires Calm(me, h, host) && k.owner in h.names && (k in h.live ==> h.live[k].holder == me)
      ensures (k in host.live ==> host.live[k].holder == me) && k.owner in host.names
    {
    }

    /** Why a release failed, of the record that was read. */
    ghost predicate ReleaseFailed(run: seq<Event>, since: nat, reference: string, owner: string, before: Option<Record>,
                                  h: Host) {
      || (before.Some? && owner !in before.value.owners) || RecordIsForeign(rules, h, reference)
      || Thwarted(run, since, me, ImageOf(before))
    }

    /** Reads the record under the lock, and drops the owner. */
    method ReleaseLocked(reference: string, owner: string) returns (ok: bool, ghost before: Option<Record>)
      requires Valid() && Is(Entered(reference)) && owner in host.names
      requires LeaseKey(reference, owner) in host.live ==> host.live[LeaseKey(reference, owner)].holder == me
      modifies this
      ensures Valid() && Inside(host, me) && host.stages[me].ref == reference && Calm(me, old(host), host)
      ensures OwnerDropped(reference, owner, ok, before, host) && old(log) <= log
      ensures !ok ==> ReleaseFailed(log, |old(log)|, reference, owner, before, host)
    {
      hide Sound, Legal, At, Retained, OnDisk, Calm, Allowed, After, Without, Thwarted, RecordIsForeign;
      before, ok := None, true;
      var loaded := ReadRecord(reference);
      ghost var read := host;
      match loaded {
        case Broken =>
          ok := false;
          ReadingFailed(reference, |old(log)|);
        case Missing => ReadIsOnDisk(reference, None);
        case Found(state) =>
          before := Some(state);
          ReadIsOnDisk(reference, Some(state));
          if owner !in state.owners {
            ok := false;
          } else {
            StillMine(old(host), LeaseKey(reference, owner));
            ghost var since := |log|;
            ok := ReleaseOwner(reference, state, owner);
            CalmTransitive(me, old(host), read, host);
            if !ok {
              StillThwarted(log, log, since, |old(log)|, me, state.imageId);
            }
          }
      }
    }

    /**
     Drops an owner; the last one takes the record with it, after the tag if that is
     the lease group's to delete. `before` is the record as it was read under the lock.
     */
    method Release(reference: string, owner: string) returns (ok: bool, ghost before: Option<Record>)
      requires Valid() && !Inside(host, me)
      requires owner in host.names
      requires LeaseKey(reference, owner) in host.live ==> host.live[LeaseKey(reference, owner)].holder == me
      modifies this
      ensures Valid() && !Inside(host, me) && Calm(me, old(host), host)
      ensures ok ==> LeaseKey(reference, owner) !in host.live
      ensures OwnerDropped(reference, owner, ok, before, host)
      ensures !ok ==> ReleaseFailed(log, |old(log)|, reference, owner, before, host)
    {
      hide Sound, Legal, At, Retained, OnDisk, Calm, Allowed, After, Without, Thwarted, RecordIsForeign;
      before := None;
      ok := Lock(reference);
      if !ok {
        JustThwarted(log, |old(log)|, me, ImageOf(before));
        return;
      }
      StillMine(old(host), LeaseKey(reference, owner));
      ghost var locked, since := host, |log|;
      ok, before := ReleaseLocked(reference, owner);
      CalmTransitive(me, old(host), locked, host);
      ghost var left, run := host, log;
      Unlock(reference);
      CalmTransitive(me, old(host), left, host);
      SectionKeepsFile(left, host, reference);
      OwnerStaysDropped(left, host, reference, owner, ok, before);
      StillFailed(left, run, since, |old(log)|, reference, owner, before);
      if ok {
        DroppedIsNotLive(reference, owner, before);
      }
    }

    lemma StillFailed(h: Host, run: seq<Event>, since: nat, earlier: nat, reference: string, owner: string,
                      before: Option<Record>)
      requires earlier <= since && run <= log && SameFile(h, host, reference)
      ensures ReleaseFailed(run, since, reference, owner, before, h) ==>
              ReleaseFailed(log, earlier, reference, owner, before, host)
    {
      hide Thwarted, RecordIsForeign, SameFile;
      StaysForeign(h, host, reference);
      if Thwarted(run, since, me, ImageOf(before)) {
        StillThwarted(run, log, since, earlier, me, ImageOf(before));
      }
    }

    function ImageOf(record: Option<Record>): string {
      match record
      case None => ""
      case Some(r) => r.imageId
    }

    lemma ReadingFailed(reference: string, since: nat)
      requires since < |log| && (RecordIsForeign(rules, host, reference) || log[|log| - 1] == Read(me, true))
      ensures RecordIsForeign(rules, host, reference) || Thwarted(log, since, me, "")
    {
      if log[|log| - 1] == Read(me, true) {
        JustThwarted(log, since, me, "");
      }
    }

    lemma StaysForeign(h: Host, h': Host, reference: string)
      requires SameFile(h, h', reference)
      ensures RecordIsForeign(rules, h, reference) == RecordIsForeign(rules, h', reference)
    {
    }

    lemma OwnerStaysDropped(h: Host, h': Host, reference: string, owner: string, ok: bool, before: Option<Record>)
      requires OwnerDropped(reference, owner, ok, before, h) && SameFile(h, h', reference)
      ensures OwnerDropped(reference, owner, ok, before, h')
    {
      hide Normal, Without;
    }

    lemma DroppedIsNotLive(reference: string, owner: string, before: Option<Record>)
      requires Valid() && OwnerDropped(reference, owner, true, before, host)
      ensures LeaseKey(reference, owner) !in host.live
    {
      hide Legal, At, Sound;
      NotRecordedNotLive(reference, owner);
    }

    lemma SectionKeepsFile(h: Host, h': Host, ref: string)
      requires Inside(h, me) && h.stages[me].ref == ref && SectionKept(rules, h.stages[me], h, h')
      ensures SameFile(h, h', ref)
      ensures forall r | OnDisk(rules, h, ref, r) :: OnDisk(rules, h', ref, r)
      ensures forall r, gone | Retained(rules, h, ref, r, gone) :: Retained(rules, h', ref, r, gone)
    {
    }

    // -------------------------------------------------------------- reconcile

    lemma KeptIsWithout(r: Record, clusters: seq<string>)
      ensures Without(r, r.owners.Keys - LiveOwners(r.owners, clusters).Keys) ==
              r.(owners := LiveOwners(r.owners, clusters))
    {
      hide IsLive, ClusterHint;
      var kept := LiveOwners(r.owners, clusters);
      assert kept.Keys <= r.owners.Keys;
      assert r.owners - (r.owners.Keys - kept.Keys) == kept;
    }

    /** Takes the owners whose cluster is gone out of the local copy of the record. */
    method DropDead(reference: string, state: Record, clusters: seq<string>) returns (left: Record, changed: bool)
      requires Valid() && Is(Looked(reference, Some(state)))
      modifies this
      ensures Valid() && Calm(me, old(host), host) && old(log) <= log
      ensures Is(Dropping(reference, state, state.owners.Keys - LiveOwners(state.owners, clusters).Keys))
      ensures left == state.(owners := LiveOwners(state.owners, clusters)) && (changed <==> left != state)
      ensures OnDisk(rules, host, reference, state)
    {
      hide Sound, Legal, At, Calm, LiveAfter, Normal, LiveOwners, IsLive;
      ReadIsOnDisk(reference, Some(state));
      var kept, dropped := DropDeadOwners(state.owners, clusters);
      left, changed := state.(owners := kept), dropped;
      Act(Reconciled(me, clusters));
    }

    /** The record read at a visit has lost its dead owners, and is gone if none is left; or it was kept. */
    ghost predicate DeadDropped(reference: string, clusters: seq<string>, v: Visit, h: Host) {
      match v.before
      case None => v.ok ==> File(reference) !in h.store
      case Some(r) =>
        var kept := LiveOwners(r.owners, clusters);
        if !v.ok then Retained(rules, h, reference, r, r.owners.Keys - kept.Keys)
        else if kept == map[] then File(reference) !in h.store
        else OnDisk(rules, h, reference, r.(owners := kept))
    }

    /** Drops the dead owners of the record that was read. */
    method ReconcileOwners(reference: string, state: Record, clusters: seq<string>) returns (ok: bool)
      requires Valid() && Is(Looked(reference, Some(state))) && state.reference == reference
      modifies this
      ensures Valid() && Inside(host, me) && host.stages[me].ref == reference && Calm(me, old(host), host)
      ensures old(log) <= log && DeadDropped(reference, clusters, Visit(ok, Some(state), |log|), host)
      ensures !ok ==> Thwarted(log, |old(log)|, me, state.imageId)
    {
      hide Sound, Legal, At, Retained, OnDisk, Calm, Allowed, After, LiveOwners, Thwarted;
      ok := true;
      ReadIsOnDisk(reference, Some(state));
      KeptIsWithout(state, clusters);
      LeftOwners(state, state.owners.Keys - LiveOwners(state.owners, clusters).Keys);
      var left, changed := DropDead(reference, state, clusters);
      ghost var dropped, since := host, |log|;
      if left.owners == map[] || changed {
        ok := WriteOrRelease(reference, left);
        if !ok {
          StillThwarted(log, log, since, |old(log)|, me, state.imageId);
        }
        CalmTransitive(me, old(host), dropped, host);
        WrittenIsOnDisk(reference, state, left);
      }
    }

    /**
     Drops exactly the owners whose cluster is gone; if none is left the record goes
     as after the last release. `before` is the record as it was read under the lock.
     */
    method ReconcileReference(reference: string, clusters: seq<string>) returns (ok: bool, ghost before: Option<Record>)
      requires Valid() && !Inside(host, me)
      modifies this
      ensures Valid() && !Inside(host, me) && Calm(me, old(host), host) && old(log) <= log
      ensures DeadDropped(reference, clusters, Visit(ok, before, |log|), host)
      ensures !ok ==>
                RecordIsForeign(rules, host, reference) || Thwarted(log, |old(log)|, me, ImageOf(before))
    {
      hide Sound, Legal, At, Retained, OnDisk, Calm, Allowed, After, LiveOwners, Thwarted, RecordIsForeign;
      before := None;
      ok := Lock(reference);
      if !ok {
        JustThwarted(log, |old(log)|, me, ImageOf(before));
        return;
      }
      ghost var h1 := host;
      var loaded := ReadRecord(reference);
      ghost var h2 := host;
      CalmTransitive(me, old(host), h1, h2);
      match loaded {
        case Broken =>
          ok := false;
          ReadingFailed(reference, |old(log)|);
        case Missing => ReadIsOnDisk(reference, None);
        case Found(state) =>
          before := Some(state);
          ghost var since := |log|;
          ok := ReconcileOwners(reference, state, clusters);
          CalmTransitive(me, old(host), h2, host);
          if !ok {
            StillThwarted(log, log, since, |old(log)|, me, state.imageId);
          }
      }
      ghost var h4, run := host, log;
      Unlock(reference);
      SectionKeepsFile(h4, host, reference);
      StaysForeign(h4, host, reference);
      if Thwarted(run, |old(log)|, me, ImageOf(before)) {
        StillThwarted(run, log, |old(log)|, |old(log)|, me, ImageOf(before));
      }
      CalmTransitive(me, old(host), h4, host);
    }

    /** A record that was read, less some owners, is read back as it was written. */
    lemma WrittenIsOnDisk(reference: string, state: Record, left: Record)
      requires state.reference == reference && Normal(rules, state) == state && left == state.(owners := left.owners)
      ensures File(reference) in host.store && host.store[File(reference)] == left ==>
              OnDisk(rules, host, reference, left)
    {
    }

    /** Where a run was after a visit, and what it had come to by then. */
    ghost predicate Visited(run: seq<Event>, reference: string, clusters: seq<string>, v: Visit) {
      && v.at <= |run| && Legal(rules, start, run[..v.at])
      && DeadDropped(reference, clusters, v, At(rules, start, run[..v.at]))
    }

    lemma VisitedStays(run: seq<Event>, longer: seq<Event>, reference: string, clusters: seq<string>, v: Visit)
      requires Visited(run, reference, clusters, v) && run <= longer
      ensures Visited(longer, reference, clusters, v)
    {
      hide Legal, At, DeadDropped;
      assert longer[..v.at] == run[..v.at];
    }

    lemma JustVisited(reference: string, clusters: seq<string>, v: Visit)
      requires Valid() && v.at == |log| && DeadDropped(reference, clusters, v, host)
      ensures Visited(log, reference, clusters, v)
    {
      hide DeadDropped, Sound;
      assert log[..|log|] == log;
    }

    /** Reconciles every reference a record was seen for; the others go on when one fails. */
    method Reconcile(references: seq<string>, clusters: seq<string>) returns (failures: nat, ghost visits: seq<Visit>)
      requires Valid() && !Inside(host, me)
      modifies this
      ensures Valid() && !Inside(host, me) && Calm(me, old(host), host) && old(log) <= log
      ensures |visits| == |references| && failures == Failures(visits)
      ensures forall i | 0 <= i < |visits| ::
              Visited(log, references[i], clusters, visits[i]) && |old(log)| <= visits[i].at
    {
      hide Sound, Legal, At, DeadDropped, Calm, Visited;
      failures, visits := 0, [];
      StaysCalm(host);
      for i := 0 to |references|
        invariant Valid() && !Inside(host, me) && Calm(me, old(host), host) && old(log) <= log
        invariant |visits| == i && failures == Failures(visits)
        invariant forall j | 0 <= j < i ::
                    Visited(log, references[j], clusters, visits[j]) && |old(log)| <= visits[j].at
      {
        ghost var before, run := host, log;
        var ok, read := ReconcileReference(references[i], clusters);
        CalmTransitive(me, old(host), before, host);
        forall j | 0 <= j < i ensures Visited(log, references[j], clusters, visits[j]) {
          VisitedStays(run, log, references[j], clusters, visits[j]);
        }
        visits := visits + [Visit(ok, read, |log|)];
        JustVisited(references[i], clusters, visits[i]);
        assert visits[..i] == visits[..|visits| - 1];
        if !ok {
          failures := failures + 1;
        }
      }
    }

    lemma StaysCalm(h: Host)
      ensures Calm(me, h, h)
    {
    }

    // -------------------------------------------------------------- acquire

    /** The lease is held by this process and recorded on disk with the image it was given for. */
    ghost predicate Granted(reference: string, lease: ImageLease)
      reads this
    {
      var k := LeaseKey(reference, lease.owner);
      && k in host.live && host.live[k] == Lease(lease.result.imageId, me)
      && LeaseRecorded(rules, host, k) && lease.owner in host.names
    }

    /** Publishes a record with a new owner. */
    method PublishOwner(reference: string, state: Record, step: Event) returns (ok: bool)
      requires Valid() && Inside(host, me) && host.stages[me].Settled? && host.stages[me].ref == reference
      requires step.Recorded? && step.ok && step.p == me && Allowed(rules, host, step)
      requires NewRecord(rules, host, step) == Some(state)
      modifies this
      ensures Valid() && Is(Closing(reference))
      ensures if ok then Granted(reference, ImageLease(old(host.stages)[me].result, NewOwner(old(host), step)))
                         && File(reference) in host.store && host.store[File(reference)] == state
              else Calm(me, old(host), host)
      ensures |old(log)| < |log| && old(log) <= log && log[|log| - 1] == Recorded(me, step.prefix, step.nanos, ok)
      ensures !ok ==> SameFile(old(host), host, reference)
    {
      hide Sound, Legal, At, Calm, TagsAfter, Joined, OwnerName, Strings.TrimSpace;
      Others();
      ghost var before := host;
      ok := *;
      var e := Recorded(me, step.prefix, step.nanos, ok);
      if !ok {
        FailedRecordingIsCalm(rules, me, host, e);
        CalmTransitive(me, old(host), before, After(rules, before, e));
      }
      Take(e);
      if ok {
        LiveIsRecorded(LeaseKey(reference, NewOwner(old(host), step)));
      }
    }

    lemma LiveIsRecorded(k: LeaseKey)
      requires Valid() && k in host.live
      ensures LeaseRecorded(rules, host, k) && k.owner in host.names
    {
      hide Legal, At, StageAgrees, Generated, HoldsLock;
    }

    /** Adds an owner to the record, or starts one, if it names the image docker resolves. */
    method RecordAcquire(reference: string, prefix: string, found: Option<Record>, result: ImageResult,
                         preExisted: bool)
      returns (lease: Option<ImageLease>)
      requires Valid() && Is(Settled(reference, found, result, preExisted)) && prefix != ""
               && result.reference == reference
      modifies this
      ensures Valid() && Inside(host, me) && host.stages[me].ref == reference && old(log) <= log
      ensures match lease
              case None =>
                && Calm(me, old(host), host) && SameFile(old(host), host, reference)
                && (|| rules.classify(reference).None? || Strings.TrimSpace(result.imageId) == ""
                    || (found.Some? && IsOfAnother(found.value, result) &&
                        File(reference) in host.store && IsOfAnother(host.store[File(reference)], result))
                    || (|old(log)| < |log| && log[|log| - 1].Recorded? && !log[|log| - 1].ok &&
                        log[|log| - 1].p == me && log[|log| - 1].prefix == prefix))
              case Some(l) =>
                && Granted(reference, l) && l.result == result && ClusterHint(l.owner) == prefix
                && rules.classify(reference).Some? && Strings.TrimSpace(result.imageId) != ""
                && File(reference) in host.store
                && var r := host.store[File(reference)];
                   (found.None? ==> r.owners == map[l.owner := me] && r.preExisting == preExisted) &&
                   (found.Some? ==>
                      !IsOfAnother(found.value, result) &&
                      r.owners == found.value.owners[l.owner := me] && r.preExisting == found.value.preExisting)
    {
      hide Sound, Legal, At, Calm, OwnerName, ClusterHint, StoreAfter, TagsAfter, LiveAfter, After;
      StaysCalm(host);
      var classified := rules.classify(reference);
      if classified.None? || Strings.TrimSpace(result.imageId) == "" {
        return None;
      }
      if found.Some? && !SameImage(found.value, result) {
        FoundIsOnDisk(reference, found.value);
        return None;
      }
      var imageClass := classified.value.imageClass;
      var state := match found
                   case Some(r) => r
                   case None => Record(2, imageClass, result.reference, result.imageId, result.revision, result.recipe,
                                       result.platform, preExisted, map[], "");
      if state.imageClass.Unclassified? {
        state := state.(imageClass := imageClass);
      }
      var nanos: nat := *;
      var step := Recorded(me, prefix, nanos, true);
      var owner := OwnerName(prefix, me, nanos, Count(host, me) + 1);
      state := state.(owners := state.owners[owner := me], lastError := "");
      HintIsPrefix(prefix, me, nanos, Count(host, me) + 1);
      var ok := PublishOwner(reference, state, step);
      lease := if ok then Some(ImageLease(result, owner)) else None;
    }

    lemma FoundIsOnDisk(reference: string, r: Record)
      requires Valid() && Inside(host, me) && host.stages[me].Settled? && host.stages[me].ref == reference
      requires host.stages[me].found == Some(r)
      ensures File(reference) in host.store
      ensures forall result | IsOfAnother(r, result) :: IsOfAnother(host.store[File(reference)], result)
    {
      hide Legal, At, LeaseRecorded, Generated, HoldsLock;
      assert StageAgrees(rules, host, host.stages[me]);
    }

    /** Looks whether the tag is there; whatever follows, this is what the look showed. */
    method Sight(reference: string, ghost found: Option<Record>) returns (item: Option<Metadata>)
      requires Valid() && Is(Looked(reference, found))
      modifies this
      ensures Valid() && Calm(me, old(host), host)
      ensures Is(Checked(reference, found, IdOf(item)))
      ensures item.Some? ==> item.value.platform == platformOf(item.value.id)
      ensures old(log) <= log && |old(log)| < |log| && log[|log| - 1] == Sighted(me, IdOf(item))
    {
      hide Sound, Legal, At, Calm, StoreAfter, TagsAfter, LiveAfter;
      item := InspectImage(reference);
      ghost var before := host;
      Act(Sighted(me, IdOf(item)));
      CalmTransitive(me, old(host), before, host);
    }

    /** Settles on a result, with the tag as it now is. */
    method Settle(reference: string, result: ImageResult, tag: Option<string>, ghost found: Option<Record>,
                  ghost seen: Option<string>)
      requires Valid() && Is(Checked(reference, found, seen)) && result.reference == reference
      modifies this
      ensures Valid() && Calm(me, old(host), host) && log == old(log) + [Resolved(me, result, tag)]
      ensures Is(Settled(reference, found, result, seen.Some?))
    {
      hide Sound, Legal, At, Calm, StoreAfter, TagsAfter, LiveAfter;
      Act(Resolved(me, result, tag));
    }

    /** Leaves it at a failed build, after which the tag may have moved. */
    method Fail(reference: string, tag: Option<string>, ghost found: Option<Record>, ghost seen: Option<string>)
      requires Valid() && Is(Checked(reference, found, seen))
      modifies this
      ensures Valid() && Calm(me, old(host), host) && log == old(log) + [Unresolved(me, tag)]
      ensures Is(Closing(reference))
    {
      hide Sound, Legal, At, Calm, StoreAfter, TagsAfter, LiveAfter;
      Act(Unresolved(me, tag));
    }

    function TagNow(reference: string): Option<string>
      reads this
    {
      if reference in host.tags then Some(host.tags[reference]) else None
    }

    /** This process's look, taken since the run was that long, showed `seen`. */
    ghost predicate Looks(run: seq<Event>, since: nat, seen: Option<string>) {
      exists i | since <= i < |run| :: run[i] == Sighted(me, seen)
    }

    lemma StillLooks(run: seq<Event>, longer: seq<Event>, since: nat, before: nat, seen: Option<string>)
      requires Looks(run, since, seen) && before <= since && run <= longer
      ensures Looks(longer, before, seen)
    {
      var i :| since <= i < |run| && run[i] == Sighted(me, seen);
      assert longer[i] == run[i];
    }

    /** A local image as docker shows it, if it is what its name says. */
    method ResolveLocal(reference: string, imageClass: Class, ghost found: Option<Record>)
      returns (result: Option<ImageResult>, preExisted: bool, ghost seen: Option<string>)
      requires Valid() && Is(Looked(reference, found))
      modifies this
      ensures Valid() && Calm(me, old(host), host)
      ensures Looks(log, |old(log)|, seen) && preExisted == seen.Some? && old(log) <= log
      ensures match result
              case None => Is(Checked(reference, found, seen)) && !ShowsLocal(reference, imageClass, seen)
              case Some(r) =>
                && |old(log)| < |log| && log[|log| - 1].Resolved? && log[|log| - 1].p == me
                && log[|log| - 1].result == r && ShowsLocal(reference, imageClass, seen)
                && Is(Settled(reference, found, r, preExisted)) && IsLocal(reference, imageClass, r)
                && seen == Some(r.imageId)
    {
      hide Sound, Legal, At, Calm, Allowed, After;
      var item := Sight(reference, found);
      ghost var before := host;
      preExisted, seen := item.Some?, IdOf(item);
      assert log[|log| - 1] == Sighted(me, seen);
      if item.None? {
        return None, preExisted, seen;
      }
      var local := identify(reference);
      if local.None? || item.value.platform != local.value.platform {
        return None, preExisted, seen;
      }
      if (imageClass.Derived? && !local.value.fromUpstream) || (imageClass.Cache? && !local.value.fromRecipe) {
        return None, preExisted, seen;
      }
      var r := ImageResult(reference, local.value.revision, local.value.recipe, local.value.platform, item.value.id);
      ghost var at := |log| - 1;
      Settle(reference, r, TagNow(reference), found, seen);
      assert log[at] == Sighted(me, seen);
      CalmTransitive(me, old(host), before, host);
      result := Some(r);
    }

    /** What a look showed is an image of the platform and the kind of identity the reference spells out. */
    ghost predicate ShowsLocal(reference: string, imageClass: Class, seen: Option<string>) {
      && seen.Some? && identify(reference).Some?
      && platformOf(seen.value) == identify(reference).value.platform
      && (imageClass.Derived? ==> identify(reference).value.fromUpstream)
      && (imageClass.Cache? ==> identify(reference).value.fromRecipe)
    }

    /** The result names an image of the platform, revision, recipe and kind of identity its reference spells out. */
    ghost predicate IsLocal(reference: string, imageClass: Class, r: ImageResult) {
      && r.reference == reference
      && identify(reference).Some?
      && var local := identify(reference).value;
      && r.platform == local.platform == platformOf(r.imageId)
      && r.revision == local.revision && r.recipe == local.recipe
      && (imageClass.Derived? ==> local.fromUpstream) && (imageClass.Cache? ==> local.fromRecipe)
    }

    /** Builds or reuses the image, or fails; either way the tag may move. */
    method Ensure(reference: string) returns (result: Option<ImageResult>, tag: Option<string>)
      ensures result.Some? ==> result.value.reference == reference
    {
      assert var none: Option<ImageResult> := None; none.None?;
      result :| result.Some? ==> result.value.reference == reference;
      tag :| tag.Some? || tag.None?;
    }

    /** The image under a reference, present for an upstream one, else built or reused. */
    method Resolve(reference: string, platform: string, imageClass: Class, ghost found: Option<Record>)
      returns (result: Option<ImageResult>, preExisted: bool, ghost seen: Option<string>)
      requires Valid() && Is(Looked(reference, found))
      modifies this
      ensures Valid() && Calm(me, old(host), host)
      ensures Looks(log, |old(log)|, seen) && preExisted == seen.Some? && old(log) <= log
      ensures match result
              case None =>
                if imageClass.Upstream? then Is(Checked(reference, found, seen)) && seen.None?
                else
                  && Is(Closing(reference))
                  && |old(log)| < |log| && log[|log| - 1].Unresolved? && log[|log| - 1].p == me
              case Some(r) =>
                && |old(log)| < |log| && log[|log| - 1].Resolved? && log[|log| - 1].p == me
                && log[|log| - 1].result == r
                && Is(Settled(reference, found, r, preExisted)) && r.reference == reference
                && (imageClass.Upstream? ==>
                      seen == Some(r.imageId) && r.platform == platform && r.revision == "" && r.recipe == "")
    {
      hide Sound, Legal, At, Calm, Allowed, After, SectionKept;
      var item := Sight(reference, found);
      ghost var before := host;
      preExisted, seen := item.Some?, IdOf(item);
      ghost var at := |log| - 1;
      assert log[at] == Sighted(me, seen);
      var tag := TagNow(reference);
      if imageClass.Upstream? {
        if item.None? {
          return None, preExisted, seen;
        }
        result := Some(ImageResult(reference, "", "", platform, item.value.id));
      } else {
        Others();
        CalmTransitive(me, old(host), before, host);
        assert log[at] == Sighted(me, seen);
        result, tag := Ensure(reference);
        if result.None? {
          before := host;
          Fail(reference, tag, found, seen);
          CalmTransitive(me, old(host), before, host);
          assert log[at] == Sighted(me, seen);
          return;
        }
      }
      ghost var settling := host;
      Settle(reference, result.value, tag, found, seen);
      assert log[at] == Sighted(me, seen);
      CalmTransitive(me, old(host), settling, host);
    }

    /** Why a record of a settled result was not written. */
    lemma RecordingDeclined(reference: string, prefix: string, result: ImageResult, at: nat, since: nat)
      requires since <= at < |log| && log[at].Resolved? && log[at].p == me && log[at].result == result
      requires || rules.classify(reference).None? || Strings.TrimSpace(result.imageId) == ""
               || (File(reference) in host.store && IsOfAnother(host.store[File(reference)], result))
               || (log[|log| - 1].Recorded? && !log[|log| - 1].ok && log[|log| - 1].p == me)
      ensures Declined(rules, host, log, since, me, reference)
    {
      hide IsOfAnother, Strings.TrimSpace, RecordIsForeign;
      if log[|log| - 1].Recorded? && !log[|log| - 1].ok && log[|log| - 1].p == me {
        JustDeclined(rules, host, log, since, |log| - 1, me, reference);
      } else if rules.classify(reference).Some? {
        JustDeclined(rules, host, log, since, at, me, reference);
      }
    }

    lemma ReadingDeclined(reference: string, since: nat)
      requires since < |log| && (RecordIsForeign(rules, host, reference) || log[|log| - 1] == Read(me, true))
      ensures Declined(rules, host, log, since, me, reference)
    {
      hide RecordIsForeign;
      if log[|log| - 1] == Read(me, true) {
        JustDeclined(rules, host, log, since, |log| - 1, me, reference);
      }
    }

    /** Leaving the section changes neither. */
    lemma LooksLonger(h: Host, run: seq<Event>, since: nat, before: nat, reference: string, seen: Option<string>)
      requires run <= log && before <= since
      requires Inside(h, me) && h.stages[me].ref == reference && SectionKept(rules, h.stages[me], h, host)
      ensures Declined(rules, h, run, since, me, reference) ==> Declined(rules, host, log, before, me, reference)
      ensures Looks(run, since, seen) ==> Looks(log, before, seen)
    {
      hide Declined, Looks;
      if Declined(rules, h, run, since, me, reference) {
        StillDeclined(rules, h, host, run, log, since, before, me, reference);
      }
      if Looks(run, since, seen) {
        StillLooks(run, log, since, before, seen);
      }
    }

    /** What an acquire came to: a granted lease for the canonical name, or nothing of this process's own. */
    ghost predicate Acquired(image: string, prefix: string, lease: Option<ImageLease>, before: Host)
      reads this
    {
      match lease
      case None => Calm(me, before, host)
      case Some(l) =>
        && rules.classify(image).Some?
        && var c := rules.classify(image).value;
        && l.result.reference == c.canonical && Granted(c.canonical, l)
        && ClusterHint(l.owner) == Strings.TrimSpace(prefix)
    }

    /** A lease stays granted when its section is left. */
    lemma GrantOutlivesLock(h: Host, reference: string, lease: ImageLease)
      requires Valid() && Inside(h, me) && h.stages[me].ref == reference && SectionKept(rules, h.stages[me], h, host)
      requires LeaseKey(reference, lease.owner) in h.live
      requires h.live[LeaseKey(reference, lease.owner)] == Lease(lease.result.imageId, me)
      ensures Granted(reference, lease)
    {
      hide Legal, At, Sound, Generated, HoldsLock;
      LiveIsRecorded(LeaseKey(reference, lease.owner));
    }

    /** What is granted under the lock. */
    ghost predicate GrantedFor(reference: string, owner: string, lease: ImageLease)
      reads this
    {
      lease.result.reference == reference && Granted(reference, lease) && ClusterHint(lease.owner) == owner
    }

    /** Settles on an image and records the owner. */
    method AcquireResolved(reference: string, platform: string, owner: string, imageClass: Class, found: Option<Record>)
      returns (lease: Option<ImageLease>)
      requires Valid() && Is(Looked(reference, found)) && owner != ""
      modifies this
      ensures Valid() && Inside(host, me) && host.stages[me].ref == reference && old(log) <= log
      ensures match lease
              case None =>
                && Calm(me, old(host), host)
                && (Declined(rules, host, log, |old(log)|, me, reference) ||
                    (imageClass.Upstream? && Looks(log, |old(log)|, None)))
              case Some(l) => GrantedFor(reference, owner, l)
    {
      hide Sound, Legal, At, Calm, Allowed, After, ClusterHint, Strings.TrimSpace, Declined, Looks, IsOfAnother;
      var result, preExisted, seen := Resolve(reference, platform, imageClass, found);
      ghost var resolved, run := host, log;
      if result.None? {
        if !imageClass.Upstream? {
          JustDeclined(rules, host, log, |old(log)|, |log| - 1, me, reference);
        }
        return None;
      }
      lease := RecordAcquire(reference, owner, found, result.value, preExisted);
      if lease.None? {
        CalmTransitive(me, old(host), resolved, host);
        RecordingDeclined(reference, owner, result.value, |run| - 1, |old(log)|);
      }
    }

    /** The same with the image that is on the host. */
    method AcquirePresent(reference: string, owner: string, imageClass: Class, found: Option<Record>)
      returns (lease: Option<ImageLease>, ghost seen: Option<string>)
      requires Valid() && Is(Looked(reference, found)) && owner != ""
      modifies this
      ensures Valid() && Inside(host, me) && host.stages[me].ref == reference && old(log) <= log
      ensures match lease
              case None =>
                && Calm(me, old(host), host)
                && (|| Declined(rules, host, log, |old(log)|, me, reference)
                    || (Looks(log, |old(log)|, seen) && !ShowsLocal(reference, imageClass, seen)))
              case Some(l) => GrantedFor(reference, owner, l) && IsLocal(reference, imageClass, l.result)
    {
      hide Sound, Legal, At, Calm, Allowed, After, ClusterHint, Strings.TrimSpace, IsLocal, Declined, Looks;
      hide IsOfAnother, ShowsLocal;
      var result, preExisted;
      result, preExisted, seen := ResolveLocal(reference, imageClass, found);
      ghost var resolved, run := host, log;
      lease := None;
      if result.None? {
        return;
      }
      assert result.value.reference == reference by {
        LocalNamesReference(reference, imageClass, result.value);
      }
      lease := RecordAcquire(reference, owner, found, result.value, preExisted);
      if lease.None? {
        CalmTransitive(me, old(host), resolved, host);
        RecordingDeclined(reference, owner, result.value, |run| - 1, |old(log)|);
      }
    }

    /** Locks a reference and reads its record. */
    method Enter(reference: string) returns (ok: bool, found: Option<Record>)
      requires Valid() && !Inside(host, me)
      modifies this
      ensures Valid() && Calm(me, old(host), host) && old(log) <= log
      ensures if ok then Is(Looked(reference, found))
              else !Inside(host, me) && Declined(rules, host, log, |old(log)|, me, reference)
    {
      hide Sound, Legal, At, Calm, Allowed, After, Declined;
      ok := Lock(reference);
      found := None;
      if !ok {
        JustDeclined(rules, host, log, |old(log)|, |log| - 1, me, reference);
        return;
      }
      ghost var locked := host;
      var loaded := ReadRecord(reference);
      CalmTransitive(me, old(host), locked, host);
      match loaded {
        case Missing =>
        case Found(r) => found := Some(r);
        case Broken =>
          ok := false;
          ReadingDeclined(reference, |old(log)|);
          ghost var read, run := host, log;
          Unlock(reference);
          CalmTransitive(me, old(host), read, host);
          LooksLonger(read, run, |old(log)|, |old(log)|, reference, None);
      }
    }

    /** Acquires a lease on an image, which is built if need be unless it is an upstream one. */
    method Acquire(image: string, platform: string, prefix: string) returns (lease: Option<ImageLease>)
      requires Valid() && !Inside(host, me)
      modifies this
      ensures Valid() && !Inside(host, me) && Acquired(image, prefix, lease, old(host)) && old(log) <= log
      ensures lease.None? && rules.classify(image).Some? && Strings.TrimSpace(prefix) != "" ==>
                var c := rules.classify(image).value;
                || Declined(rules, host, log, |old(log)|, me, c.canonical)
                || (c.imageClass.Upstream? && Looks(log, |old(log)|, None))
    {
      hide Sound, Legal, At, Calm, Allowed, After, ClusterHint, Strings.TrimSpace, Declined, Looks, IsOfAnother;
      StaysCalm(host);
      var classified := rules.classify(image);
      if classified.None? {
        return None;
      }
      var imageClass, reference := classified.value.imageClass, classified.value.canonical;
      var owner := Strings.TrimSpace(prefix);
      if owner == "" {
        return None;
      }
      var ok, found := Enter(reference);
      if !ok {
        return None;
      }
      ghost var entered, since := host, |log|;
      lease := AcquireResolved(reference, platform, owner, imageClass, found);
      ghost var left, run := host, log;
      Unlock(reference);
      if lease.None? {
        CalmTransitive(me, old(host), entered, left);
        CalmTransitive(me, old(host), left, host);
        LooksLonger(left, run, since, |old(log)|, reference, None);
      } else {
        GrantOutlivesLock(left, reference, lease.value);
      }
    }

    /** Acquires a lease on a derived or cache image that is on the host already. */
    method AcquireLocal(image: string, prefix: string) returns (lease: Option<ImageLease>)
      requires Valid() && !Inside(host, me)
      modifies this
      ensures Valid() && !Inside(host, me) && Acquired(image, prefix, lease, old(host))
      ensures lease.Some? ==>
                var c := rules.classify(image).value;
                (c.imageClass.Derived? || c.imageClass.Cache?) && IsLocal(c.canonical, c.imageClass, lease.value.result)
      ensures old(log) <= log
      ensures lease.None? && rules.classify(image).Some? && Strings.TrimSpace(prefix) != "" ==>
                var c := rules.classify(image).value;
                || (!c.imageClass.Derived? && !c.imageClass.Cache?)
                || Declined(rules, host, log, |old(log)|, me, c.canonical)
                || exists seen :: Looks(log, |old(log)|, seen) && !ShowsLocal(c.canonical, c.imageClass, seen)
    {
      hide Sound, Legal, At, Calm, Allowed, After, ClusterHint, Strings.TrimSpace, IsLocal, Declined, Looks;
      hide IsOfAnother, ShowsLocal;
      StaysCalm(host);
      var classified := rules.classify(image);
      if classified.None? {
        return None;
      }
      var imageClass, reference := classified.value.imageClass, classified.value.canonical;
      if !imageClass.Derived? && !imageClass.Cache? {
        return None;
      }
      var owner := Strings.TrimSpace(prefix);
      if owner == "" {
        return None;
      }
      var ok, found := Enter(reference);
      if !ok {
        return None;
      }
      ghost var entered, since := host, |log|;
      ghost var seen;
      lease, seen := AcquirePresent(reference, owner, imageClass, found);
      ghost var left, run := host, log;
      Unlock(reference);
      if lease.None? {
        CalmTransitive(me, old(host), entered, left);
        CalmTransitive(me, old(host), left, host);
        LooksLonger(left, run, since, |old(log)|, reference, seen);
      } else {
        GrantOutlivesLock(left, reference, lease.value);
      }
    }

    lemma LocalNamesReference(reference: string, imageClass: Class, r: ImageResult)
      requires IsLocal(reference, imageClass, r)
      ensures r.reference == reference
    {
    }
  }
}
