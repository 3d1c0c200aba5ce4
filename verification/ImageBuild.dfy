/**
 Ensuring the agent-core image: processes look for it, take a build lock, look
 again, build and look a last time. A run is a log of their steps; Allowed gives
 the steps of the builder's code, and the builder's own method keeps to it.
 */
module ImageBuild {
  import opened Wrappers

  type Proc = nat

  /** What a process builds from: the checkout and the identity the image must carry. */
  datatype Request = Request(root: string, revision: string, recipe: string, platform: string)

  /** What docker knows of an image: its ID, its platform and its labels. */
  datatype Metadata = Metadata(id: string, platform: string, revision: string, recipe: string, platformLabel: string)

  /**
   What each process asks for, whether it is refused at once (its checkout has no
   identity, or the image name is not the canonical one for it), and the lock
   directory of a request.
   */
  datatype Plan = Plan(request: Proc -> Request, refused: Proc -> bool, lock: Request -> string)
  {
    function Key(p: Proc): string {
      lock(request(p))
    }
  }

  predicate Matches(m: Metadata, r: Request) {
    && "sha256:" <= m.id
    && m.platform == r.platform && m.revision == r.revision && m.recipe == r.recipe && m.platformLabel == r.platform
  }

  predicate Found(item: Option<Metadata>, r: Request) {
    item.Some? && Matches(item.value, r)
  }

  /** How far a process is; Leaving holds the lock, Gone does not. */
  datatype Stage =
    | Waiting                             // found no match, without the lock
    | Holding                             // has the lock
    | Building                            // found no match under the lock
    | Checking                            // has built
    | Leaving(result: Option<ImageResult>)
    | Gone(result: Option<ImageResult>)

  datatype ImageResult = ImageResult(imageId: string, reused: bool)

  /** `image` is what the tag names; `built` counts the builds that were found to match. */
  datatype Host = Host(image: Option<Metadata>, locks: map<string, Proc>, stages: map<Proc, Stage>, built: nat)

  datatype Event =
    | Inspected(p: Proc, item: Option<Metadata>)
    | Locked(p: Proc)
    | Built(p: Proc, outcome: Option<Metadata>) // what docker built and tagged, if it did
    | GaveUp(p: Proc)                           // of the lock
    | Unlocked(p: Proc)

  predicate InSection(s: Stage) {
    s.Holding? || s.Building? || s.Checking? || s.Leaving?
  }

  function ResultOf(item: Metadata, reused: bool): ImageResult {
    ImageResult(item.id, reused)
  }

  /** The steps of the builder; an inspection shows what the tag names, or fails and shows nothing. */
  predicate Allowed(plan: Plan, h: Host, e: Event) {
    match e
    case Inspected(p, item) =>
      (item == h.image || item == None) && (p !in h.stages || h.stages[p].Holding? || h.stages[p].Checking?)
    case Locked(p) => p in h.stages && h.stages[p].Waiting? && plan.Key(p) !in h.locks
    case Built(p, _) => p in h.stages && h.stages[p].Building?
    case GaveUp(p) => p in h.stages && h.stages[p].Waiting?
    case Unlocked(p) => p in h.stages && h.stages[p].Leaving?
  }

  /** The stage behind an inspection. */
  function Looked(before: Option<Stage>, item: Option<Metadata>, r: Request): Stage {
    var matches := Found(item, r);
    match before
    case None => if matches then Gone(Some(ResultOf(item.value, true))) else Waiting
    case Some(Checking) => Leaving(if matches then Some(ResultOf(item.value, false)) else None)
    case Some(_) => if matches then Leaving(Some(ResultOf(item.value, true))) else Building
  }

  function StageOf(h: Host, p: Proc): Option<Stage> {
    if p in h.stages then Some(h.stages[p]) else None
  }

  function After(plan: Plan, h: Host, e: Event): Host
    requires Allowed(plan, h, e)
  {
    match e
    case Inspected(p, item) =>
      h.(stages := h.stages[p := Looked(StageOf(h, p), item, plan.request(p))],
         built := if StageOf(h, p) == Some(Checking) && Found(item, plan.request(p)) then h.built + 1 else h.built)
    case Locked(p) => h.(locks := h.locks[plan.Key(p) := p], stages := h.stages[p := Holding])
    case Built(p, outcome) =>
      h.(image := if outcome.Some? then outcome else h.image,
         stages := h.stages[p := if outcome.Some? then Checking else Leaving(None)])
    case GaveUp(p) => h.(stages := h.stages[p := Gone(None)])
    case Unlocked(p) => h.(locks := h.locks - {plan.Key(p)}, stages := h.stages[p := Gone(h.stages[p].result)])
  }

  /** Before anybody starts; the tag may name any image or none, and locks may be left over. */
  predicate IsStart(h: Host) {
    h.stages == map[] && h.built == 0
  }

  ghost predicate Legal(plan: Plan, start: Host, log: seq<Event>)
    decreases |log|, 0
  {
    log == [] ||
    (var before := log[..|log| - 1];
     Legal(plan, start, before) && Allowed(plan, At(plan, start, before), log[|log| - 1]))
  }

  ghost function At(plan: Plan, start: Host, log: seq<Event>): Host
    requires Legal(plan, start, log)
    decreases |log|, 1
  {
    if log == [] then start
    else After(plan, At(plan, start, log[..|log| - 1]), log[|log| - 1])
  }

  lemma Extend(plan: Plan, start: Host, log: seq<Event>, e: Event)
    requires Legal(plan, start, log) && Allowed(plan, At(plan, start, log), e)
    ensures Legal(plan, start, log + [e]) && At(plan, start, log + [e]) == After(plan, At(plan, start, log), e)
  {
    hide Allowed, After;
    assert (log + [e])[..|log|] == log;
  }

  // ---------------------------------------------------------------- one build is enough

  ghost predicate LocksHeld(plan: Plan, h: Host) {
    forall p | p in h.stages && InSection(h.stages[p]) :: plan.Key(p) in h.locks && h.locks[plan.Key(p)] == p
  }

  lemma StepKeepsLocks(plan: Plan, h: Host, e: Event)
    requires LocksHeld(plan, h) && Allowed(plan, h, e)
    ensures LocksHeld(plan, After(plan, h, e))
  {
  }

  /** All processes ask for one image from one checkout. */
  ghost predicate OneRequest(plan: Plan) {
    forall p, q :: plan.request(p) == plan.request(q)
  }

  /** Once a build was found to match, the tag matches, and nobody is building. */
  ghost predicate BuiltOnce(plan: Plan, h: Host) {
    && h.built <= 1
    && (h.built == 1 ==>
          && Found(h.image, plan.request(0))
          && forall p | p in h.stages :: !h.stages[p].Building? && !h.stages[p].Checking?)
  }

  /** An inspection under the lock fails after a build succeeded. */
  predicate MissesBuild(h: Host, e: Event) {
    && e.Inspected? && e.p in h.stages && h.stages[e.p].Holding?
    && h.built > 0 && e.item != h.image
  }

  lemma StepKeepsBuiltOnce(plan: Plan, h: Host, e: Event)
    requires OneRequest(plan) && LocksHeld(plan, h) && BuiltOnce(plan, h) && Allowed(plan, h, e) && !MissesBuild(h, e)
    ensures BuiltOnce(plan, After(plan, h, e))
  {
    assert plan.request(e.p) == plan.request(0);
    if e.Inspected? && StageOf(h, e.p) == Some(Checking) {
      forall q | q in h.stages && q != e.p ensures !h.stages[q].Building? && !h.stages[q].Checking? {
        assert plan.request(q) == plan.request(e.p);
        OneInSection(plan, h, e.p, q);
      }
    }
  }

  lemma OneInSection(plan: Plan, h: Host, p: Proc, q: Proc)
    requires LocksHeld(plan, h) && p != q && plan.Key(p) == plan.Key(q) && p in h.stages && q in h.stages
    ensures !InSection(h.stages[p]) || !InSection(h.stages[q])
  {
  }

  /** No step of the run misses a build. */
  ghost predicate NoneMisses(plan: Plan, start: Host, log: seq<Event>)
    requires Legal(plan, start, log)
  {
    log == [] ||
    (var before := log[..|log| - 1];
     NoneMisses(plan, start, before) && !MissesBuild(At(plan, start, before), log[|log| - 1]))
  }

  /**
   However many processes ask, and however they interleave, at most one build
   succeeds, unless an inspection under the lock fails after a build succeeded.
   */
  lemma {:induction false} AtMostOneBuild(plan: Plan, start: Host, log: seq<Event>)
    requires IsStart(start) && OneRequest(plan) && Legal(plan, start, log) && NoneMisses(plan, start, log)
    ensures At(plan, start, log).built <= 1
    ensures LocksHeld(plan, At(plan, start, log)) && BuiltOnce(plan, At(plan, start, log))
  {
    hide Allowed, After, OneRequest, MissesBuild;
    if log != [] {
      var before := log[..|log| - 1];
      AtMostOneBuild(plan, start, before);
      StepKeepsLocks(plan, At(plan, start, before), log[|log| - 1]);
      StepKeepsBuiltOnce(plan, At(plan, start, before), log[|log| - 1]);
    }
  }

  /** The last step of a process that looked at the image showed this item. */
  ghost predicate LastLook(log: seq<Event>, p: Proc, item: Metadata, i: nat) {
    && i < |log| && log[i] == Inspected(p, Some(item))
    && forall k | i < k < |log| && log[k].p == p :: !log[k].Inspected?
  }

  predicate HasResult(s: Stage) {
    (s.Leaving? || s.Gone?) && s.result.Some?
  }

  /** The image carries all of what is asked for. */
  predicate Carries(m: Metadata, r: Request) {
    && |m.id| >= 7 && m.id[..7] == "sha256:"
    && m.revision == r.revision && m.recipe == r.recipe && m.platform == r.platform == m.platformLabel
  }

  lemma MatchesExactly(m: Metadata, r: Request)
    ensures Matches(m, r) <==> Carries(m, r)
  {
  }

  /** What keeps a process from an image: no lock, no build, or an image built that does not carry what it asked for. */
  predicate Fails(plan: Plan, e: Event, p: Proc) {
    match e
    case GaveUp(q) => q == p
    case Built(q, outcome) => q == p && outcome.None?
    case Inspected(q, item) => q == p && (item.None? || !Carries(item.value, plan.request(p)))
    case _ => false
  }

  /** What its last step but the unlocking was when a process ended without an image. */
  ghost predicate FailedAt(plan: Plan, log: seq<Event>, p: Proc, i: nat) {
    && i < |log| && Fails(plan, log[i], p) && (log[i].Inspected? ==> BuildsBy(log[..i], p) > 0)
    && forall k | i < k < |log| && log[k].p == p :: log[k].Unlocked?
  }

  predicate WithoutResult(s: Stage) {
    (s.Leaving? || s.Gone?) && s.result.None?
  }

  /** A process that is building has not built before, and one that is checking has. */
  lemma {:induction false} CheckingHasBuilt(plan: Plan, start: Host, log: seq<Event>, p: Proc)
    requires IsStart(start) && Legal(plan, start, log)
    ensures StageOf(At(plan, start, log), p) == Some(Checking) ==> BuildsBy(log, p) > 0
  {
    if log != [] {
      CheckingHasBuilt(plan, start, log[..|log| - 1], p);
    }
  }

  /** Whoever ends without an image gave up the lock, failed to build, or did not find what it had built. */
  lemma {:induction false} FailureHasCause(plan: Plan, start: Host, log: seq<Event>, p: Proc) returns (i: nat)
    requires IsStart(start) && Legal(plan, start, log)
    requires p in At(plan, start, log).stages && WithoutResult(At(plan, start, log).stages[p])
    ensures FailedAt(plan, log, p, i)
  {
    hide Matches, Carries;
    var before, e := log[..|log| - 1], log[|log| - 1];
    if e.p != p || e.Unlocked? {
      i := FailureHasCause(plan, start, before, p);
      assert log[i] == before[i] && log[..i] == before[..i];
    } else {
      i := |log| - 1;
      CheckingHasBuilt(plan, start, before, p);
      if e.Inspected? && e.item.Some? {
        MatchesExactly(e.item.value, plan.request(p));
      }
    }
  }

  /** Whoever ends with an image ends with one whose last inspection matched its request. */
  lemma {:induction false} ResultMatched(plan: Plan, start: Host, log: seq<Event>, p: Proc)
    returns (item: Metadata, i: nat)
    requires IsStart(start) && Legal(plan, start, log)
    requires p in At(plan, start, log).stages && HasResult(At(plan, start, log).stages[p])
    ensures LastLook(log, p, item, i) && Carries(item, plan.request(p))
    ensures At(plan, start, log).stages[p].result.value.imageId == item.id
  {
    var before, e := log[..|log| - 1], log[|log| - 1];
    if e.p == p && e.Inspected? {
      item, i := e.item.value, |log| - 1;
      MatchesExactly(item, plan.request(p));
    } else {
      item, i := ResultMatched(plan, start, before, p);
      assert log[i] == before[i];
    }
  }

  /** One failed inspection under the lock is enough for a second build. */
  lemma MissedBuildBuildsAgain(plan: Plan, m: Metadata) returns (start: Host, log: seq<Event>)
    requires Matches(m, plan.request(0)) && Matches(m, plan.request(1))
    ensures IsStart(start) && Legal(plan, start, log) && At(plan, start, log).built == 2
  {
    hide Matches, Legal, At, Plan.Key;
    start, log := Host(None, map[], map[], 0), [];
    StartIsLegal(plan, start);
    var h := start;
    h, log := Next(plan, start, log, Inspected(0, None));
    h, log := Next(plan, start, log, Locked(0));
    h, log := Next(plan, start, log, Inspected(0, None));
    h, log := Next(plan, start, log, Built(0, Some(m)));
    h, log := Next(plan, start, log, Inspected(0, Some(m)));
    h, log := Next(plan, start, log, Unlocked(0));
    h, log := Next(plan, start, log, Inspected(1, None));
    h, log := Next(plan, start, log, Locked(1));
    h, log := Next(plan, start, log, Inspected(1, None));
    h, log := Next(plan, start, log, Built(1, Some(m)));
    h, log := Next(plan, start, log, Inspected(1, Some(m)));
  }

  /** From two checkouts of one revision, whose locks differ, two builds can succeed. */
  lemma TwoCheckoutsBuildTwice(plan: Plan, m: Metadata) returns (start: Host, log: seq<Event>)
    requires plan.Key(0) != plan.Key(1) && Matches(m, plan.request(0)) && Matches(m, plan.request(1))
    ensures IsStart(start) && Legal(plan, start, log) && At(plan, start, log).built == 2
  {
    hide Matches, Legal, At, Plan.Key;
    start, log := Host(None, map[], map[], 0), [];
    StartIsLegal(plan, start);
    var h := start;
    h, log := Next(plan, start, log, Inspected(0, None));
    h, log := Next(plan, start, log, Inspected(1, None));
    h, log := Next(plan, start, log, Locked(0));
    h, log := Next(plan, start, log, Locked(1));
    h, log := Next(plan, start, log, Inspected(0, None));
    h, log := Next(plan, start, log, Inspected(1, None));
    h, log := Next(plan, start, log, Built(0, Some(m)));
    h, log := Next(plan, start, log, Built(1, Some(m)));
    h, log := Next(plan, start, log, Inspected(0, Some(m)));
    h, log := Next(plan, start, log, Inspected(1, Some(m)));
  }

  lemma StartIsLegal(plan: Plan, start: Host)
    ensures Legal(plan, start, []) && At(plan, start, []) == start
  {
  }

  lemma Next(plan: Plan, start: Host, log: seq<Event>, e: Event) returns (h: Host, longer: seq<Event>)
    requires Legal(plan, start, log) && Allowed(plan, At(plan, start, log), e)
    ensures longer == log + [e] && Legal(plan, start, longer)
    ensures h == At(plan, start, longer) == After(plan, At(plan, start, log), e)
  {
    hide Allowed, After;
    Extend(plan, start, log, e);
    longer := log + [e];
    h := At(plan, start, longer);
  }

  // ---------------------------------------------------------------- the builder

  /** The images a process has built. */
  ghost function BuildsBy(log: seq<Event>, p: Proc): nat {
    if log == [] then 0
    else
      var e := log[|log| - 1];
      BuildsBy(log[..|log| - 1], p) + if e.Built? && e.p == p && e.outcome.Some? then 1 else 0
  }

  class ImageBuilder {
    const plan: Plan
    const me: Proc
    ghost const start: Host
    ghost var log: seq<Event>
    var host: Host

    ghost predicate Valid()
      reads this
    {
      IsStart(start) && Legal(plan, start, log) && At(plan, start, log) == host && LocksHeld(plan, host)
    }

    constructor (p: Plan, process: Proc, h: Host)
      requires IsStart(h)
      ensures Valid() && plan == p && me == process && host == h && log == []
    {
      plan, me, start, log, host := p, process, h, [], h;
    }

    method Take(e: Event)
      requires Valid() && Allowed(plan, host, e)
      modifies this
      ensures Valid() && host == After(plan, old(host), e) && log == old(log) + [e]
      ensures BuildsBy(log, me) == BuildsBy(old(log), me) + if e.Built? && e.p == me && e.outcome.Some? then 1 else 0
    {
      hide Allowed, After, LocksHeld;
      assert (log + [e])[..|log|] == log;
      StepKeepsLocks(plan, host, e);
      Extend(plan, start, log, e);
      log := log + [e];
      host := After(plan, host, e);
    }

    /** Any number of steps of other processes. */
    method Others()
      requires Valid()
      modifies this
      ensures Valid() && StageOf(host, me) == StageOf(old(host), me)
      ensures BuildsBy(log, me) == BuildsBy(old(log), me)
    {
      var steps: nat := *;
      while steps > 0
        invariant Valid() && StageOf(host, me) == StageOf(old(host), me)
        invariant BuildsBy(log, me) == BuildsBy(old(log), me)
      {
        assert Locked(me + 1).p != me;
        var e: Event :| e.p != me;
        if Allowed(plan, host, e) {
          OthersKeepStage(e);
          Take(e);
        }
        steps := steps - 1;
      }
    }

    lemma OthersKeepStage(e: Event)
      requires Allowed(plan, host, e) && e.p != me
      ensures StageOf(After(plan, host, e), me) == StageOf(host, me)
    {
    }

    method Inspect() returns (item: Option<Metadata>)
      requires Valid() && (me !in host.stages || host.stages[me].Holding? || host.stages[me].Checking?)
      modifies this
      ensures Valid() && StageOf(host, me) == Some(Looked(StageOf(old(host), me), item, plan.request(me)))
      ensures BuildsBy(log, me) == BuildsBy(old(log), me)
    {
      hide Matches;
      Others();
      var answers: bool := *;
      item := if answers then host.image else None;
      Take(Inspected(me, item));
    }

    /** Makes the lock directory, or gives up; a lock that is there is waited for. */
    method AcquireLock() returns (ok: bool)
      requires Valid() && me in host.stages && host.stages[me].Waiting?
      modifies this
      ensures Valid() && StageOf(host, me) == Some(if ok then Holding else Gone(None))
      ensures BuildsBy(log, me) == BuildsBy(old(log), me)
    {
      var patience: nat := *;
      while true
        invariant Valid() && me in host.stages && host.stages[me].Waiting?
        invariant BuildsBy(log, me) == BuildsBy(old(log), me)
        decreases patience
      {
        Others();
        if plan.Key(me) !in host.locks {
          Take(Locked(me));
          return true;
        }
        if patience == 0 {
          Take(GaveUp(me));
          return false;
        }
        patience := patience - 1;
      }
    }

    /** The image, reused or built; its ID is that of this process's last inspection, which matched. */
    method Ensure() returns (result: Option<ImageResult>)
      requires Valid() && me !in host.stages
      modifies this
      ensures Valid()
      ensures if plan.refused(me) then result.None? && log == old(log) else StageOf(host, me) == Some(Gone(result))
      ensures result.Some? ==> exists item, i ::
                LastLook(log, me, item, i) && Carries(item, plan.request(me)) && result.value.imageId == item.id
      ensures result.None? && !plan.refused(me) ==> exists i :: FailedAt(plan, log, me, i)
      ensures result.Some? ==> BuildsBy(log, me) == BuildsBy(old(log), me) + if result.value.reused then 0 else 1
    {
      if plan.refused(me) {
        return None;
      }
      result := EnsureStages();
      if result.Some? {
        var item, i := ResultMatched(plan, start, log, me);
        assert LastLook(log, me, item, i);
      } else {
        var i := FailureHasCause(plan, start, log, me);
      }
    }

    method EnsureStages() returns (result: Option<ImageResult>)
      requires Valid() && me !in host.stages
      modifies this
      ensures Valid() && StageOf(host, me) == Some(Gone(result))
      ensures result.Some? ==> BuildsBy(log, me) == BuildsBy(old(log), me) + if result.value.reused then 0 else 1
    {
      hide Matches, Legal, At, LocksHeld;
      var item := Inspect();
      if Found(item, plan.request(me)) {
        return Some(ResultOf(item.value, true));
      }
      var locked := AcquireLock();
      if !locked {
        return None;
      }
      item := Inspect();
      if Found(item, plan.request(me)) {
        result := Some(ResultOf(item.value, true));
      } else {
        var outcome := Build();
        if outcome.None? {
          result := None;
        } else {
          item := Inspect();
          result := if Found(item, plan.request(me)) then Some(ResultOf(item.value, false)) else None;
        }
      }
      Others();
      Take(Unlocked(me));
    }

    method Build() returns (outcome: Option<Metadata>)
      requires Valid() && me in host.stages && host.stages[me].Building?
      modifies this
      ensures Valid() && StageOf(host, me) == Some(if outcome.Some? then Checking else Leaving(None))
      ensures BuildsBy(log, me) == BuildsBy(old(log), me) + if outcome.Some? then 1 else 0
    {
      Others();
      outcome :| outcome.Some? || outcome.None?;
      Take(Built(me, outcome));
    }
  }
}
