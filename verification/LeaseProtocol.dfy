/**
 The image lease protocol: processes that share reference-counted records on disk
 under one lock directory per record file, next to docker and whoever else uses it.
 A run is a log of small steps; Allowed says which step the lease manager may take
 from what it knows at that point, and the theorems are about every such log.
 */
module LeaseProtocol {
  import opened Wrappers
  import Strings
  import opened OwnerNames

  type Proc = nat

  datatype Class = Runtime | Test | Derived | Cache | Upstream | Unclassified

  /** A lease record; `owners` maps owner names to process numbers. */
  datatype Record = Record(
    version: int,
    imageClass: Class,
    reference: string,
    imageId: string,
    revision: string,
    recipe: string,
    platform: string,
    preExisting: bool,
    owners: map<string, nat>,
    lastError: string)

  datatype ImageResult = ImageResult(reference: string, revision: string, recipe: string, platform: string,
      imageId: string)

  datatype Classified = Classified(imageClass: Class, canonical: string)

  /** The file of a reference, a truncated hash that may collide, and the classes of references. */
  datatype Rules = Rules(path: string -> string, classify: string -> Option<Classified>)

  datatype LeaseKey = LeaseKey(reference: string, owner: string)

  /** A lease some process holds: the image it was promised. */
  datatype Lease = Lease(imageId: string, holder: Proc)

  /** How far a process is in its critical section, and what it knows there. */
  datatype Stage =
    | Entered(ref: string)
    | Looked(ref: string, found: Option<Record>)
    | Checked(ref: string, found: Option<Record>, seen: Option<string>) // `seen` is what docker said of the tag
    | Settled(ref: string, found: Option<Record>, result: ImageResult, preExisted: bool)
    | Dropping(ref: string, record: Record, gone: set<string>) // `gone` are the owners taken out of the local copy
    | Inspected(ref: string, record: Record, gone: set<string>, id: string)
    | Unused(ref: string, record: Record, gone: set<string>)
    | Removable(ref: string, record: Record, gone: set<string>)
    | Refused(ref: string, record: Record, gone: set<string>)
    | Closing(ref: string)

  /** `names` are the owner names given out in this run, `counters` the processes' sequence numbers. */
  datatype Host = Host(
    store: map<string, Record>,
    locks: map<string, Proc>,
    tags: map<string, string>,
    used: set<string>,
    stages: map<Proc, Stage>,
    live: map<LeaseKey, Lease>,
    names: set<string>,
    counters: map<Proc, nat>)

  datatype Usage = NoAnswer | InUse | Free

  datatype Event =
    | Locked(p: Proc, ref: string)
    | Read(p: Proc, failed: bool)
    | Sighted(p: Proc, seen: Option<string>)
    | Resolved(p: Proc, result: ImageResult, tag: Option<string>)
    | Unresolved(p: Proc, tag: Option<string>)          // the image could not be built
    | Recorded(p: Proc, prefix: string, nanos: nat, ok: bool)
    | Dropped(p: Proc, owner: string)
    | Reconciled(p: Proc, clusters: seq<string>)
    | Kept(p: Proc, ok: bool)
    | Inspect(p: Proc, answer: Option<string>)
    | Listed(p: Proc, usage: Usage)
    | Untagged(p: Proc, ok: bool, gone: bool)
    | Noted(p: Proc, message: string, ok: bool)
    | Deleted(p: Proc, ok: bool)
    | Unlocked(p: Proc, ok: bool)
    | GaveUp(p: Proc, ref: string, timedOut: bool)      // no lock: it was there too long, or could not be made
    | Retagged(ref: string, tag: Option<string>) // somebody else tags or untags
    | Containers(used: set<string>)              // somebody else starts or stops containers

  /** A step that takes its process somewhere in its critical section, or in or out of it. */
  predicate ByProcess(e: Event) {
    !e.Retagged? && !e.Containers? && !e.GaveUp?
  }

  // ---------------------------------------------------------------- records

  predicate Managed(c: Class) {
    c.Runtime? || c.Test? || c.Derived? || c.Cache?
  }

  /** A record as it is read: the current version, and a class if its reference has one. */
  function Normal(rules: Rules, r: Record): Record {
    var classified := rules.classify(r.reference);
    r.(version := 2, imageClass := if r.imageClass.Unclassified? && classified.Some? then classified.value.imageClass
        else r.imageClass)
  }

  datatype Loaded = Missing | Broken | Found(record: Record)

  function Load(rules: Rules, store: map<string, Record>, ref: string): Loaded {
    var file := rules.path(ref);
    if file !in store then Missing
    else if store[file].reference != ref || (store[file].version != 1 && store[file].version != 2) then Broken
    else Found(Normal(rules, store[file]))
  }

  /** A record names the image that docker now resolves. */
  predicate SameImage(r: Record, result: ImageResult) {
    && r.reference == result.reference && r.imageId == result.imageId
    && r.revision == result.revision && r.recipe == result.recipe && r.platform == result.platform
  }

  /** The record with one more owner. */
  function Joined(found: Option<Record>, imageClass: Class, result: ImageResult, preExisted: bool, owner: string,
                  pid: nat): Record {
    var base := match found
                case Some(r) => r
                case None => Record(2, imageClass, result.reference, result.imageId, result.revision, result.recipe,
                                    result.platform, preExisted, map[], "");
    base.(imageClass := if base.imageClass.Unclassified? then imageClass else base.imageClass,
          owners := base.owners[owner := pid], lastError := "")
  }

  function Without(r: Record, gone: set<string>): Record {
    r.(owners := r.owners - gone)
  }

  /** The last owner is gone, and the tag is the lease group's to delete. */
  predicate MayUntag(r: Record, gone: set<string>) {
    r.owners.Keys <= gone && !r.preExisting && Managed(r.imageClass)
  }

  // ---------------------------------------------------------------- steps

  /** A process is in a critical section. */
  predicate Inside(h: Host, p: Proc) {
    p in h.stages
  }

  function WithTag(tags: map<string, string>, ref: string, tag: Option<string>): map<string, string> {
    match tag
    case Some(id) => tags[ref := id]
    case None => tags - {ref}
  }

  function FileOf(rules: Rules, h: Host, p: Proc): string
    requires Inside(h, p)
  {
    rules.path(h.stages[p].ref)
  }

  predicate Tagged(h: Host, ref: string, id: string) {
    ref in h.tags && h.tags[ref] == id
  }

  function Count(h: Host, p: Proc): nat {
    if p in h.counters then h.counters[p] else 0
  }

  /** The name of the owner a process records next. */
  function NewOwner(h: Host, e: Event): string
    requires e.Recorded?
  {
    OwnerName(e.prefix, e.p, e.nanos, Count(h, e.p) + 1)
  }

  /** Between looking at a tag and removing it. */
  predicate Guarded(s: Stage, ref: string) {
    (s.Inspected? || s.Unused?) && s.ref == ref
  }

  predicate Allowed(rules: Rules, h: Host, e: Event) {
    match e
    case Locked(p, ref) => !Inside(h, p) && rules.path(ref) !in h.locks
    case Read(p, _) => Inside(h, p) && h.stages[p].Entered?
    case Sighted(p, seen) =>
      Inside(h, p) && h.stages[p].Looked? && (seen.Some? ==> Tagged(h, h.stages[p].ref, seen.value))
    case Resolved(p, result, _) =>
      Inside(h, p) && h.stages[p].Checked? && result.reference == h.stages[p].ref
    case Unresolved(p, _) => Inside(h, p) && h.stages[p].Checked?
    case Recorded(p, prefix, _, _) =>
      && Inside(h, p) && h.stages[p].Settled? && prefix != ""
      && rules.classify(h.stages[p].ref).Some?
      && Strings.TrimSpace(h.stages[p].result.imageId) != ""
      && (h.stages[p].found.Some? ==> SameImage(h.stages[p].found.value, h.stages[p].result))
    case Dropped(p, owner) =>
      && Inside(h, p) && h.stages[p].Looked? && h.stages[p].found.Some? && owner in h.stages[p].found.value.owners
      && (var k := LeaseKey(h.stages[p].ref, owner); k in h.live ==> h.live[k].holder == p)
    case Reconciled(p, _) => Inside(h, p) && h.stages[p].Looked? && h.stages[p].found.Some?
    case Kept(p, _) =>
      Inside(h, p) && h.stages[p].Dropping? && !(h.stages[p].record.owners.Keys <= h.stages[p].gone)
    case Inspect(p, answer) =>
      && Inside(h, p) && h.stages[p].Dropping? && MayUntag(h.stages[p].record, h.stages[p].gone)
      && (answer.Some? ==> Tagged(h, h.stages[p].ref, answer.value))
    case Listed(p, usage) =>
      && Inside(h, p) && h.stages[p].Inspected? && h.stages[p].id == h.stages[p].record.imageId
      && (usage.Free? ==> h.stages[p].record.imageId !in h.used)
    case Untagged(p, ok, gone) => Inside(h, p) && h.stages[p].Unused? && (ok ==> gone)
    case Noted(p, _, _) =>
      && Inside(h, p)
      && (h.stages[p].Refused? || (h.stages[p].Inspected? && h.stages[p].id != h.stages[p].record.imageId))
    case Deleted(p, _) =>
      && Inside(h, p)
      && (h.stages[p].Removable? ||
          (h.stages[p].Dropping? && h.stages[p].record.owners.Keys <= h.stages[p].gone &&
           !MayUntag(h.stages[p].record, h.stages[p].gone)))
    case Unlocked(p, _) => Inside(h, p)
    case GaveUp(p, ref, timedOut) => !Inside(h, p) && (timedOut ==> rules.path(ref) in h.locks)
    case Retagged(ref, _) => forall p | p in h.stages :: !Guarded(h.stages[p], ref)
    case Containers(_) => true
  }

  /** The stage a step leaves its process in, unless it leaves the critical section. */
  function NextStage(rules: Rules, h: Host, e: Event): Stage
    requires ByProcess(e) && !e.Unlocked?
    requires !e.Locked? ==> Inside(h, e.p)
  {
    if e.Locked? then Entered(e.ref)
    else
      var s := h.stages[e.p];
      match e
      case Read(_, failed) =>
        (if failed then Closing(s.ref)
         else match Load(rules, h.store, s.ref)
           case Missing => Looked(s.ref, None)
           case Broken => Closing(s.ref)
           case Found(r) => Looked(s.ref, Some(r)))
      case Sighted(_, seen) =>
        if s.Looked? then Checked(s.ref, s.found, seen) else s
      case Resolved(_, result, _) =>
        if s.Checked? then Settled(s.ref, s.found, result, s.seen.Some?) else s
      case Dropped(_, owner) =>
        if s.Looked? && s.found.Some? then Dropping(s.ref, s.found.value, {owner}) else s
      case Reconciled(_, clusters) =>
        if s.Looked? && s.found.Some? then
          Dropping(s.ref, s.found.value, s.found.value.owners.Keys - LiveOwners(s.found.value.owners, clusters).Keys)
        else s
      case Inspect(_, answer) =>
        if s.Dropping? then
          if answer.Some? then Inspected(s.ref, s.record, s.gone, answer.value) else Removable(s.ref, s.record, s.gone)
        else s
      case Listed(_, usage) =>
        if s.Inspected? then
          if usage.Free? then Unused(s.ref, s.record, s.gone) else Refused(s.ref, s.record, s.gone)
        else s
      case Untagged(_, ok, _) =>
        if s.Unused? then
          if ok then Removable(s.ref, s.record, s.gone) else Refused(s.ref, s.record, s.gone)
        else s
      case _ => Closing(s.ref)
  }

  /** The steps that change a record file. */
  predicate Writes(e: Event) {
    (e.Recorded? || e.Kept? || e.Noted? || e.Deleted?) && e.ok
  }

  /** The stages in which a process has a local copy of the record. */
  predicate HasCopy(s: Stage) {
    s.Dropping? || s.Inspected? || s.Unused? || s.Removable? || s.Refused?
  }

  /** A writing step finds in its process's stage what it writes. */
  predicate Writable(rules: Rules, h: Host, e: Event) {
    && Writes(e) && Inside(h, e.p)
    && (if e.Recorded? then h.stages[e.p].Settled? && rules.classify(h.stages[e.p].ref).Some?
        else HasCopy(h.stages[e.p]))
  }

  /** The record file after a step of its process: Some(r) is published, None is deleted. */
  function NewRecord(rules: Rules, h: Host, e: Event): Option<Record>
    requires Writable(rules, h, e)
  {
    var s := h.stages[e.p];
    match e
    case Recorded(p, _, _, _) =>
      Some(Joined(s.found, rules.classify(s.ref).value.imageClass, s.result, s.preExisted, NewOwner(h, e), p))
    case Kept(_, _) => Some(Without(s.record, s.gone))
    case Noted(_, message, _) => Some(Without(s.record, s.gone).(lastError := message))
    case Deleted(_, _) => None
  }

  function StoreAfter(rules: Rules, h: Host, e: Event): map<string, Record>
    requires Allowed(rules, h, e)
  {
    if !Writes(e) then h.store
    else
      match NewRecord(rules, h, e)
      case Some(r) => h.store[FileOf(rules, h, e.p) := r]
      case None => h.store - {FileOf(rules, h, e.p)}
  }

  function TagsAfter(rules: Rules, h: Host, e: Event): map<string, string>
    requires Allowed(rules, h, e)
  {
    match e
    case Resolved(p, _, tag) => WithTag(h.tags, h.stages[p].ref, tag)
    case Unresolved(p, tag) => WithTag(h.tags, h.stages[p].ref, tag)
    case Untagged(p, _, gone) => if gone then h.tags - {h.stages[p].ref} else h.tags
    case Retagged(ref, tag) => WithTag(h.tags, ref, tag)
    case _ => h.tags
  }

  function LiveAfter(rules: Rules, h: Host, e: Event): map<LeaseKey, Lease>
    requires Allowed(rules, h, e)
  {
    match e
    case Recorded(p, _, _, ok) =>
      var s := h.stages[p];
      if ok then h.live[LeaseKey(s.ref, NewOwner(h, e)) := Lease(s.result.imageId, p)] else h.live
    case Dropped(p, owner) => h.live - {LeaseKey(h.stages[p].ref, owner)}
    case Reconciled(p, _) =>
      var s := NextStage(rules, h, e);
      h.live - (set o | o in s.gone :: LeaseKey(s.ref, o))
    case _ => h.live
  }

  function After(rules: Rules, h: Host, e: Event): Host
    requires Allowed(rules, h, e)
  {
    Host(StoreAfter(rules, h, e),
         match e
         case Locked(p, ref) => h.locks[rules.path(ref) := p]
         case Unlocked(p, ok) => if ok then h.locks - {FileOf(rules, h, p)} else h.locks
         case _ => h.locks,
         TagsAfter(rules, h, e),
         if e.Containers? then e.used else h.used,
         if !ByProcess(e) then h.stages
         else if e.Unlocked? then h.stages - {e.p}
         else h.stages[e.p := NextStage(rules, h, e)],
         LiveAfter(rules, h, e),
         if e.Recorded? then h.names + {NewOwner(h, e)} else h.names,
         if e.Recorded? then h.counters[e.p := Count(h, e.p) + 1] else h.counters)
  }

  // ---------------------------------------------------------------- runs

  /** Nobody is in a critical section or holds a lease; records, locks and tags are arbitrary. */
  predicate IsStart(h: Host) {
    h.stages == map[] && h.live == map[] && h.names == {}
  }

  ghost predicate Legal(rules: Rules, start: Host, log: seq<Event>)
    decreases |log|, 0
  {
    log == [] ||
    (var before := log[..|log| - 1];
     Legal(rules, start, before) && Allowed(rules, At(rules, start, before), log[|log| - 1]))
  }

  /** The host after the steps of a legal log. */
  ghost function At(rules: Rules, start: Host, log: seq<Event>): Host
    requires Legal(rules, start, log)
    decreases |log|, 1
  {
    if log == [] then start
    else After(rules, At(rules, start, log[..|log| - 1]), log[|log| - 1])
  }

  lemma {:induction false} LegalPrefix(rules: Rules, start: Host, log: seq<Event>, k: nat)
    requires Legal(rules, start, log) && k <= |log|
    ensures Legal(rules, start, log[..k])
  {
    if k < |log| {
      assert log[..|log| - 1][..k] == log[..k];
      LegalPrefix(rules, start, log[..|log| - 1], k);
    } else {
      assert log[..k] == log;
    }
  }

  // ---------------------------------------------------------------- what every step keeps

  /** The record file of a reference holds what a process has read from it. */
  ghost predicate OnDisk(rules: Rules, h: Host, ref: string, r: Record) {
    && rules.path(ref) in h.store
    && h.store[rules.path(ref)].reference == ref
    && Normal(rules, h.store[rules.path(ref)]) == r
  }

  ghost predicate NoneLive(h: Host, ref: string, gone: set<string>) {
    forall o | o in gone :: LeaseKey(ref, o) !in h.live
  }

  ghost predicate FoundAgrees(rules: Rules, h: Host, ref: string, found: Option<Record>) {
    match found
    case None => rules.path(ref) !in h.store
    case Some(r) => OnDisk(rules, h, ref, r)
  }

  /** What a process knows in its critical section is so. */
  ghost predicate StageAgrees(rules: Rules, h: Host, s: Stage) {
    match s
    case Entered(_) => true
    case Closing(_) => true
    case Looked(ref, found) => FoundAgrees(rules, h, ref, found)
    case Checked(ref, found, _) => FoundAgrees(rules, h, ref, found)
    case Settled(ref, found, result, _) => FoundAgrees(rules, h, ref, found) && result.reference == ref
    case Dropping(ref, r, gone) => OnDisk(rules, h, ref, r) && NoneLive(h, ref, gone)
    case Inspected(ref, r, gone, id) =>
      OnDisk(rules, h, ref, r) && NoneLive(h, ref, gone) && MayUntag(r, gone) && Tagged(h, ref, id)
    case Unused(ref, r, gone) =>
      OnDisk(rules, h, ref, r) && NoneLive(h, ref, gone) && MayUntag(r, gone) && Tagged(h, ref, r.imageId)
    case Removable(ref, r, gone) => OnDisk(rules, h, ref, r) && NoneLive(h, ref, gone) && r.owners.Keys <= gone
    case Refused(ref, r, gone) => OnDisk(rules, h, ref, r) && NoneLive(h, ref, gone) && r.owners.Keys <= gone
  }

  ghost predicate HoldsLock(rules: Rules, h: Host, p: Proc) {
    && Inside(h, p)
    && FileOf(rules, h, p) in h.locks && h.locks[FileOf(rules, h, p)] == p
  }

  /** A live lease is recorded on disk, with the image it was promised. */
  ghost predicate LeaseRecorded(rules: Rules, h: Host, k: LeaseKey)
    requires k in h.live
  {
    var file := rules.path(k.reference);
    && file in h.store && h.store[file].reference == k.reference
    && k.owner in h.store[file].owners && h.store[file].imageId == h.live[k].imageId
  }

  /** A name given out earlier was made by some process with a sequence number it has used. */
  ghost predicate Generated(h: Host, name: string) {
    exists prefix: string, q: Proc, nanos: nat, sequence: nat | prefix != "" && sequence <= Count(h, q) ::
      name == OwnerName(prefix, q, nanos, sequence)
  }

  ghost predicate Sound(rules: Rules, h: Host) {
    && (forall p | p in h.stages :: HoldsLock(rules, h, p) && StageAgrees(rules, h, h.stages[p]))
    && (forall k | k in h.live :: LeaseRecorded(rules, h, k) && k.owner in h.names)
    && (forall n | n in h.names :: Generated(h, n))
  }

  /** Two hosts agree on all that a stage for `ref` depends on. */
  ghost predicate SameFor(rules: Rules, h: Host, h': Host, ref: string) {
    && (rules.path(ref) in h.store <==> rules.path(ref) in h'.store)
    && (rules.path(ref) in h.store ==> h.store[rules.path(ref)] == h'.store[rules.path(ref)])
    && (forall o :: LeaseKey(ref, o) in h'.live ==> LeaseKey(ref, o) in h.live)
  }

  lemma StageFrame(rules: Rules, h: Host, h': Host, s: Stage)
    requires StageAgrees(rules, h, s) && SameFor(rules, h, h', s.ref)
    requires Guarded(s, s.ref) && s.ref in h.tags ==> s.ref in h'.tags && h'.tags[s.ref] == h.tags[s.ref]
    ensures StageAgrees(rules, h', s)
  {
    hide Normal, Managed;
  }

  /** Processes in critical sections work on different record files, and so on different references. */
  lemma SectionsAreApart(rules: Rules, h: Host, p: Proc, q: Proc)
    requires Sound(rules, h) && p != q && Inside(h, p) && Inside(h, q)
    ensures FileOf(rules, h, p) != FileOf(rules, h, q)
    ensures h.stages[p].ref != h.stages[q].ref
  {
    assert HoldsLock(rules, h, p) && HoldsLock(rules, h, q);
  }
}
