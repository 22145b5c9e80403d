/**
 Taking content down and putting it back: twelve kinds of thing, some hidden by setting a few
 fields, some deleted outright, every takedown kept so that it can be undone.
 */
module Takedown {
  import opened Wrappers

  type Id = nat

  /** What a document's field holds; a field that is not there reads as null. */
  datatype Value = Null | Text(text: string) | Instant(ms: int) | Ref(id: Id) | Number(n: int) | Flag(flag: bool)

  type Doc = map<string, Value>

  function Read(doc: Doc, field: string): Value {
    if field in doc then doc[field] else Null
  }

  /** What JavaScript takes a value for in a condition. */
  predicate Truthy(v: Value) {
    v != Null && v != Text("") && v != Number(0) && v != Flag(false)
  }

  // ---------------------------------------------------------------------------
  // Plans
  // ---------------------------------------------------------------------------

  datatype Kind =
    | Message | Wish | Reel | Wishlist | Item | Event
    | MemoryWish | MemoryReply | ThankYou | Profile | GroupGift | Media

  /** A profile is named by its user's id, everything else by its own; each kind has a collection to itself. */
  datatype Target = Target(kind: Kind, id: Id)

  const REMOVED_TITLE := "Removed by Wishtick"

  /** Whether taking down such a thing deletes it, so that all of it has to be kept. */
  predicate IsHard(kind: Kind) {
    kind == MemoryWish || kind == MemoryReply || kind == ThankYou
  }

  /** The fields a soft takedown sets. An event is called off through the events service, which sets these two. */
  function Changes(kind: Kind, now: int): Doc {
    match kind
    case Message => map["deletedAt" := Instant(now)]
    case Wish => map["moderationStatus" := Text("rejected")]
    case Reel => map["reelMediaUrl" := Null]
    case Wishlist => map["archivedAt" := Instant(now)]
    case Item => map["archivedAt" := Instant(now)]
    case Event => map["status" := Text("cancelled"), "cancelledAt" := Instant(now)]
    case Profile => map["bio" := Null, "photoUrl" := Null, "photoMediaId" := Null]
    case GroupGift => map["title" := Text(REMOVED_TITLE)]
    case Media => map["status" := Text("orphaned"), "url" := Null]
    case _ => map[]
  }

  /** Whether a soft takedown of the document would change nothing. */
  predicate IsDown(kind: Kind, doc: Doc) {
    match kind
    case Message => Read(doc, "deletedAt").Instant?
    case Wish => Read(doc, "moderationStatus") == Text("rejected")
    case Reel => !Truthy(Read(doc, "reelMediaUrl"))
    case Wishlist => Read(doc, "archivedAt").Instant?
    case Item => Read(doc, "archivedAt").Instant?
    case Event => Read(doc, "status") == Text("cancelled")
    case Profile => !Truthy(Read(doc, "bio")) && !Truthy(Read(doc, "photoUrl"))
    case GroupGift => Read(doc, "title") == Text(REMOVED_TITLE)
    case Media => Read(doc, "status") == Text("orphaned")
    case _ => false
  }

  function OwnerField(kind: Kind): string {
    match kind
    case Message => "senderId"
    case Wish => "authorId"
    case Reel => "initiatorId"
    case Wishlist => "ownerId"
    case Item => "ownerId"
    case Event => "hostId"
    case MemoryWish => "contributorId"
    case MemoryReply => "authorId"
    case ThankYou => "recipientId"
    case Profile => "userId"
    case GroupGift => "initiatorId"
    case Media => "ownerId"
  }

  function OwnerOf(kind: Kind, doc: Doc): Option<Id> {
    match Read(doc, OwnerField(kind))
    case Ref(id) => Some(id)
    case _ => None
  }

  /** The fields about to be changed, as they are. */
  function Kept(doc: Doc, changes: Doc): Doc {
    map f | f in changes :: Read(doc, f)
  }

  // ---------------------------------------------------------------------------
  // State
  // ---------------------------------------------------------------------------

  /** One takedown. `before` holds the changed fields as they were, or the whole of a deleted document. */
  datatype Removal = Removal(target: Target, hard: bool, before: Doc, owner: Option<Id>, reason: Option<string>,
                             report: Option<nat>, removedBy: Id, restoredBy: Option<Id>)

  datatype AuditRow = AuditRow(actor: Id, action: string, target: Target, before: Doc, after: Doc)

  /** A removal is named by its place in `removals`. Times are in milliseconds. */
  datatype State = State(
    docs: map<Target, Doc>,
    wishCounts: map<Id, int>,        // by memory capsule
    removals: seq<Removal>,
    audit: seq<AuditRow>,
    notices: seq<(Id, Target)>,      // owners told
    recounts: seq<Id>,               // wishlists whose counts were asked for anew
    compiles: seq<Id>,               // reels queued to be compiled again
    reminders: seq<Id>,              // events whose reminders were set again
    now: int)

  datatype Error = NotFound | AlreadyRestored | NotRestorable

  datatype Result<T> = Ok(value: T) | Err(error: Error)

  datatype Input = Input(actor: Id, reason: Option<string>, report: Option<nat>)

  /** A released reel is compiled again when a wish leaves or rejoins it. */
  function Recompiled(s: State, reel: Id): State {
    var t := Target(Reel, reel);
    if t in s.docs && Read(s.docs[t], "status") == Text("released")
    then s.(docs := s.docs[t := s.docs[t]["status" := Text("releasing")]], compiles := s.compiles + [reel])
    else s
  }

  /** Keeps a capsule's count right when a deleted wish leaves or comes back. */
  function Counted(s: State, kind: Kind, doc: Doc, delta: int): State {
    match Read(doc, "capsuleId")
    case Ref(c) => if kind == MemoryWish && c in s.wishCounts then s.(wishCounts := s.wishCounts[c := s.wishCounts[c] + delta]) else s
    case _ => s
  }

  function FollowedUp(s: State, kind: Kind, doc: Doc): State {
    if kind == Item && Read(doc, "wishlistId").Ref? then s.(recounts := s.recounts + [Read(doc, "wishlistId").id])
    else if kind == Wish && Read(doc, "collectionId").Ref? then Recompiled(s, Read(doc, "collectionId").id)
    else s
  }

  /** The fields as an audit row shows them set: dates only as having been. */
  function Shown(changes: Doc): Doc {
    map f | f in changes :: if changes[f].Instant? then Text("set") else changes[f]
  }

  /** An event's audit row says only that it was cancelled. */
  function ShownAfter(kind: Kind, now: int): Doc {
    if kind == Event then map["status" := Text("cancelled")] else Shown(Changes(kind, now))
  }

  /** The document as it goes down, with what follows from that. */
  function TakeDown(s: State, t: Target): State
    requires t in s.docs
  {
    if IsHard(t.kind) then Counted(s.(docs := s.docs - {t}), t.kind, s.docs[t], -1)
    else FollowedUp(s.(docs := s.docs[t := s.docs[t] + Changes(t.kind, s.now)]), t.kind, s.docs[t])
  }

  function BeforeOf(s: State, t: Target): Doc
    requires t in s.docs
  {
    if IsHard(t.kind) then s.docs[t] else Kept(s.docs[t], Changes(t.kind, s.now))
  }

  predicate CanRemove(s: State, t: Target) {
    t in s.docs && !IsDown(t.kind, s.docs[t])
  }

  /** The removal kept, the audit row unless a report's own covers it, and the owner told. */
  function Recorded(s: State, t: Target, before: Doc, owner: Option<Id>, input: Input): State {
    var removal := Removal(t, IsHard(t.kind), before, owner, input.reason, input.report, input.actor, None);
    var row := AuditRow(input.actor, "content.remove", t,
                        if IsHard(t.kind) then map["exists" := Flag(true)] else before,
                        if IsHard(t.kind) then map["exists" := Flag(false)] else ShownAfter(t.kind, s.now));
    s.(removals := s.removals + [removal],
       audit := if input.report.Some? then s.audit else s.audit + [row],
       notices := if owner.Some? then s.notices + [(owner.value, t)] else s.notices)
  }

  /** A takedown of something missing or already down changes nothing. */
  function Removed(s: State, t: Target, input: Input): State {
    if !CanRemove(s, t) then s
    else Recorded(TakeDown(s, t), t, BeforeOf(s, t), OwnerOf(t.kind, s.docs[t]), input)
  }

  function RestoreError(s: State, i: nat): Option<Error> {
    if i >= |s.removals| then Some(NotFound)
    else if s.removals[i].restoredBy.Some? then Some(AlreadyRestored)
    else if s.removals[i].hard == (s.removals[i].target in s.docs) then Some(NotRestorable)
    else None
  }

  /** The document as it comes back, with what follows from that. */
  function PutBack(s: State, r: Removal): State
    requires r.hard || r.target in s.docs
  {
    if r.hard then Counted(s.(docs := s.docs[r.target := r.before]), r.target.kind, r.before, 1)
    else
      var back := s.(docs := s.docs[r.target := s.docs[r.target] + r.before]);
      var reminded := if r.target.kind == Event && Read(r.before, "status") == Text("published")
                      then back.(reminders := back.reminders + [r.target.id]) else back;
      FollowedUp(reminded, r.target.kind, s.docs[r.target])
  }

  /** Puts a removal back; a removal that cannot be put back is an error and changes nothing. */
  function Restored(s: State, i: nat, actor: Id): State {
    if RestoreError(s, i).Some? then s
    else
      var r := s.removals[i];
      var row := AuditRow(actor, "content.restore", r.target,
                          if r.hard then map["exists" := Flag(false)] else ShownAfter(r.target.kind, s.now),
                          if r.hard then map["exists" := Flag(true)] else r.before);
      PutBack(s, r).(removals := s.removals[i := r.(restoredBy := Some(actor))], audit := s.audit + [row])
  }

  predicate IsActive(s: State, i: int, t: Target) {
    0 <= i < |s.removals| && s.removals[i].target == t && s.removals[i].restoredBy.None?
  }

  /** Where a target's newest removal still in force is kept. */
  function ActiveFor(removals: seq<Removal>, t: Target): (i: Option<nat>)
    ensures i.Some? ==> i.value < |removals| && removals[i.value].target == t && removals[i.value].restoredBy.None?
    ensures forall j :: (if i.Some? then i.value else -1) < j < |removals| ==> !(removals[j].target == t && removals[j].restoredBy.None?)
  {
    if removals == [] then None
    else
      var last := |removals| - 1;
      if removals[last].target == t && removals[last].restoredBy.None? then Some(last) else ActiveFor(removals[..last], t)
  }

  // ---------------------------------------------------------------------------
  // What every run keeps
  // ---------------------------------------------------------------------------

  /**
   Besides removals and restores there is the compiling of reels: `recompileIfReleased` queues it, and when it is
   through the reel has a video again.
   */
  datatype Step =
    | DoRemove(target: Target, input: Input)
    | DoRestore(removal: nat, actor: Id)
    | Compile(reel: Id, key: string, durationMs: int)
    | Elapse(ms: nat)

  function PublicUrl(key: string): string {
    "/" + key
  }

  function CompiledFields(key: string, durationMs: int): Doc {
    map["status" := Text("released"), "reelStorageKey" := Text(key), "reelMediaUrl" := Text(PublicUrl(key)),
        "durationMs" := Number(durationMs), "failureReason" := Null]
  }

  /** A compile of a reel already released does nothing. */
  predicate Lands(s: State, reel: Id) {
    Target(Reel, reel) in s.docs && Read(s.docs[Target(Reel, reel)], "status") != Text("released")
  }

  function Compiled(s: State, reel: Id, key: string, durationMs: int): State {
    var t := Target(Reel, reel);
    if Lands(s, reel) then s.(docs := s.docs[t := s.docs[t] + CompiledFields(key, durationMs)]) else s
  }

  function Next(s: State, step: Step): State {
    match step
    case DoRemove(t, input) => Removed(s, t, input)
    case DoRestore(i, actor) => Restored(s, i, actor)
    case Compile(reel, key, durationMs) => Compiled(s, reel, key, durationMs)
    case Elapse(ms) => s.(now := s.now + ms)
  }

  function Run(s: State, steps: seq<Step>): State
    decreases |steps|
  {
    if steps == [] then s else Run(Next(s, steps[0]), steps[1..])
  }

  /** A field reads as it did, but that a released reel may be being compiled again. */
  predicate ReadsAs(t: Target, field: string, now: Value, before: Value) {
    now == before || (t.kind == Reel && field == "status" && before == Text("released") && now == Text("releasing"))
  }

  ghost predicate SameReads(t: Target, d1: Doc, d2: Doc) {
    forall f :: ReadsAs(t, f, Read(d1, f), Read(d2, f))
  }

  /** A target with no removal in force reads as its document did at the start, if it had one. */
  ghost predicate AsAtStart(base: Option<Doc>, s: State, t: Target) {
    && (t in s.docs <==> base.Some?)
    && (t in s.docs ==> SameReads(t, s.docs[t], base.value))
  }

  /** A target with a removal in force was up at the start and is down, and the removal holds all that putting it back needs. */
  ghost predicate HeldDown(base: Option<Doc>, s: State, r: Removal) {
    var t := r.target;
    && base.Some? && !IsDown(t.kind, base.value) && r.hard == IsHard(t.kind)
    && if r.hard then
         t !in s.docs && SameReads(t, r.before, base.value)
       else
         && t in s.docs && IsDown(t.kind, s.docs[t])
         && r.before.Keys == Changes(t.kind, 0).Keys
         && (forall f :: f in r.before ==> r.before[f] == Read(base.value, f))
         && SameReads(t, s.docs[t] + r.before, base.value)
  }

  ghost predicate NoneActive(s: State, t: Target) {
    forall i :: !IsActive(s, i, t)
  }

  /** What is known of one target, going by its document at the start. */
  ghost predicate Inv(base: Option<Doc>, s: State, t: Target) {
    && (forall i, j :: IsActive(s, i, t) && IsActive(s, j, t) ==> i == j)
    && (forall i :: IsActive(s, i, t) ==> HeldDown(base, s, s.removals[i]))
    && (NoneActive(s, t) ==> AsAtStart(base, s, t))
  }

  function WishesIn(docs: map<Target, Doc>, c: Id): set<Target> {
    set t | t in docs && t.kind == MemoryWish && Read(docs[t], "capsuleId") == Ref(c)
  }

  ghost predicate CountsRight(s: State) {
    forall c :: c in s.wishCounts ==> s.wishCounts[c] == |WishesIn(s.docs, c)|
  }

  /** A removal is hard or soft as its plan is. */
  ghost predicate ModesRight(s: State) {
    forall i :: 0 <= i < |s.removals| ==> s.removals[i].hard == IsHard(s.removals[i].target.kind)
  }

  // --- Plans

  /** Setting a plan's fields takes a document down. */
  lemma ChangesTakeDown(kind: Kind, doc: Doc, now: int)
    requires !IsHard(kind)
    ensures IsDown(kind, doc + Changes(kind, now))
    ensures Changes(kind, now).Keys == Changes(kind, 0).Keys
  {
  }

  /** Whether a field reads as a plan sets it: to some time, to nothing, or to just that. */
  predicate AsSet(now: Value, planned: Value) {
    match planned
    case Instant(_) => now.Instant?
    case Null => !Truthy(now)
    case _ => now == planned
  }

  /** The fields of a plan that tell; an event's time, a profile's picture id and a file's link are set with them. */
  function Telling(kind: Kind): set<string> {
    match kind
    case Message => {"deletedAt"}
    case Wish => {"moderationStatus"}
    case Reel => {"reelMediaUrl"}
    case Wishlist => {"archivedAt"}
    case Item => {"archivedAt"}
    case Profile => {"bio", "photoUrl"}
    case GroupGift => {"title"}
    case Event => {"status"}
    case Media => {"status"}
    case _ => {}
  }

  /** A document counts as down just if each of its plan's telling fields reads as the plan sets it. */
  lemma DownIsAsSet(kind: Kind, doc: Doc)
    requires !IsHard(kind)
    ensures Telling(kind) <= Changes(kind, 0).Keys
    ensures IsDown(kind, doc) <==> forall f :: f in Telling(kind) ==> AsSet(Read(doc, f), Changes(kind, 0)[f])
  {
    if kind == Profile {
      assert "bio" in Telling(kind) && "photoUrl" in Telling(kind);
    } else {
      var field :| field in Telling(kind);
      assert Telling(kind) == {field};
    }
  }

  /** The fields that hold what some kinds show: a video, a profile's text and picture, a title, a file. */
  function Showing(kind: Kind): set<string> {
    match kind
    case Reel => {"reelMediaUrl"}
    case Profile => {"bio", "photoUrl", "photoMediaId"}
    case GroupGift => {"title"}
    case Media => {"url"}
    case _ => {}
  }

  /** Of what they held nothing can be read once such a thing is down: two documents that differ there no longer do. */
  lemma NothingIsShown(kind: Kind, doc1: Doc, doc2: Doc, now: int, field: string)
    requires field in Showing(kind)
    ensures Read(doc1 + Changes(kind, now), field) == Read(doc2 + Changes(kind, now), field)
  {
  }

  /** The field that says when, of the kinds that have one. */
  function TimeField(kind: Kind): Option<string> {
    match kind
    case Message => Some("deletedAt")
    case Wishlist => Some("archivedAt")
    case Item => Some("archivedAt")
    case Event => Some("cancelledAt")
    case _ => None
  }

  lemma TakenDownNow(kind: Kind, doc: Doc, now: int)
    ensures TimeField(kind).Some? ==> Read(doc + Changes(kind, now), TimeField(kind).value) == Instant(now)
  {
  }

  /** Whether a document is down is told by the plan's own fields, and none of these is a reel's status. */
  lemma DownIsRead(t: Target, d1: Doc, d2: Doc)
    requires SameReads(t, d1, d2)
    ensures IsDown(t.kind, d1) == IsDown(t.kind, d2)
  {
    var fields := ["deletedAt", "moderationStatus", "reelMediaUrl", "archivedAt", "status", "bio", "photoUrl", "title"];
    assert forall i :: 0 <= i < |fields| ==> ReadsAs(t, fields[i], Read(d1, fields[i]), Read(d2, fields[i]));
  }

  lemma SameReadsInTurn(t: Target, d1: Doc, d2: Doc, d3: Doc)
    requires SameReads(t, d1, d2) && SameReads(t, d2, d3)
    ensures SameReads(t, d1, d3)
  {
  }

  // --- What follows from a takedown touches no other target, but for a reel's status

  ghost predicate Untouched(s: State, s': State, t: Target) {
    && (t in s.docs <==> t in s'.docs)
    && (t in s.docs ==> SameReads(t, s'.docs[t], s.docs[t]))
  }

  lemma FollowedUpFrame(s: State, kind: Kind, doc: Doc, t: Target)
    ensures var s' := FollowedUp(s, kind, doc);
            && Untouched(s, s', t) && s'.removals == s.removals && s'.wishCounts == s.wishCounts && s'.now == s.now
            && (t.kind != Reel && t in s.docs ==> s'.docs[t] == s.docs[t])
            && WishDocsAlike(s, s')
  {
  }

  ghost predicate WishDocsAlike(s: State, s': State) {
    forall t: Target :: t.kind == MemoryWish ==> (t in s.docs <==> t in s'.docs) && (t in s.docs ==> s'.docs[t] == s.docs[t])
  }

  lemma TakeDownFrame(s: State, t: Target, other: Target)
    requires t in s.docs && other != t
    ensures Untouched(s, TakeDown(s, t), other) && TakeDown(s, t).removals == s.removals
  {
    if !IsHard(t.kind) {
      FollowedUpFrame(s.(docs := s.docs[t := s.docs[t] + Changes(t.kind, s.now)]), t.kind, s.docs[t], other);
    }
  }

  lemma PutBackFrame(s: State, r: Removal, other: Target)
    requires (r.hard || r.target in s.docs) && other != r.target
    ensures Untouched(s, PutBack(s, r), other) && PutBack(s, r).removals == s.removals
  {
    if !r.hard {
      var back := s.(docs := s.docs[r.target := s.docs[r.target] + r.before]);
      FollowedUpFrame(back, r.target.kind, s.docs[r.target], other);
      FollowedUpFrame(back.(reminders := back.reminders + [r.target.id]), r.target.kind, s.docs[r.target], other);
    }
  }

  /** What was known of a target that is not touched stays so, if its removals in force are the same. */
  lemma UntouchedStays(base: Option<Doc>, s: State, s': State, t: Target)
    requires Untouched(s, s', t)
    ensures AsAtStart(base, s, t) ==> AsAtStart(base, s', t)
  {
    if t in s.docs && base.Some? && SameReads(t, s.docs[t], base.value) {
      SameReadsInTurn(t, s'.docs[t], s.docs[t], base.value);
    }
  }

  lemma UntouchedIsHeld(base: Option<Doc>, s: State, s': State, r: Removal)
    requires Untouched(s, s', r.target) && HeldDown(base, s, r)
    ensures HeldDown(base, s', r)
  {
    var t := r.target;
    if !r.hard {
      DownIsRead(t, s'.docs[t], s.docs[t]);
      forall f ensures ReadsAs(t, f, Read(s'.docs[t] + r.before, f), Read(s.docs[t] + r.before, f)) {
        assert ReadsAs(t, f, Read(s'.docs[t], f), Read(s.docs[t], f));
      }
      SameReadsInTurn(t, s'.docs[t] + r.before, s.docs[t] + r.before, base.value);
    }
  }

  /** Two states with the same removals in force of a target, and the target untouched between them. */
  lemma UntouchedKeepsInv(base: Option<Doc>, s: State, s': State, t: Target)
    requires Inv(base, s, t) && Untouched(s, s', t)
    requires forall i :: IsActive(s', i, t) <==> IsActive(s, i, t)
    requires forall i :: IsActive(s', i, t) && IsActive(s, i, t) ==> s'.removals[i] == s.removals[i]
    ensures Inv(base, s', t)
  {
    forall i | IsActive(s', i, t) ensures HeldDown(base, s', s'.removals[i]) {
      assert IsActive(s, i, t);
      UntouchedIsHeld(base, s, s', s.removals[i]);
    }
    UntouchedStays(base, s, s', t);
  }

  // --- One takedown

  /** What is taken down is down, and what is kept of it puts it back as it was. */
  lemma TakenDownIsHeld(base: Option<Doc>, s: State, t: Target, r: Removal)
    requires CanRemove(s, t) && AsAtStart(base, s, t)
    requires r.target == t && r.hard == IsHard(t.kind) && r.before == BeforeOf(s, t)
    ensures HeldDown(base, TakeDown(s, t), r)
  {
    DownIsRead(t, s.docs[t], base.value);
    if !r.hard {
      SoftIsHeld(base, s, t, r);
    }
  }

  lemma SoftIsHeld(base: Option<Doc>, s: State, t: Target, r: Removal)
    requires CanRemove(s, t) && AsAtStart(base, s, t) && !IsHard(t.kind) && !IsDown(t.kind, base.value)
    requires r.target == t && !r.hard && r.before == BeforeOf(s, t)
    ensures HeldDown(base, TakeDown(s, t), r)
  {
    var changed := s.docs[t] + Changes(t.kind, s.now);
    ChangesTakeDown(t.kind, s.docs[t], s.now);
    OwnTakeDown(s, t);
    KeptReadsBack(s.docs[t], Changes(t.kind, s.now));
    StatusIsNotKept(base, s, t, r);
  }

  lemma KeptReadsBack(doc: Doc, changes: Doc)
    ensures forall f :: Read(doc + changes + Kept(doc, changes), f) == Read(doc, f)
  {
  }

  /** Of a reel the status is not among the fields kept, and of the others all read as at the start. */
  lemma StatusIsNotKept(base: Option<Doc>, s: State, t: Target, r: Removal)
    requires CanRemove(s, t) && AsAtStart(base, s, t) && !IsHard(t.kind)
    requires r.target == t && r.before == BeforeOf(s, t)
    ensures forall f :: f in r.before ==> r.before[f] == Read(base.value, f)
  {
    forall f | f in r.before ensures r.before[f] == Read(base.value, f) {
      assert ReadsAs(t, f, Read(s.docs[t], f), Read(base.value, f));
    }
  }

  /** A target's own takedown compiles nothing of its own. */
  lemma OwnTakeDown(s: State, t: Target)
    requires t in s.docs && !IsHard(t.kind)
    ensures t in TakeDown(s, t).docs && TakeDown(s, t).docs[t] == s.docs[t] + Changes(t.kind, s.now)
  {
    FollowedUpFrame(s.(docs := s.docs[t := s.docs[t] + Changes(t.kind, s.now)]), t.kind, s.docs[t], t);
  }

  lemma RemoveActives(s: State, t: Target, input: Input, i: int, u: Target)
    requires CanRemove(s, t)
    ensures IsActive(Removed(s, t, input), i, u) <==> IsActive(s, i, u) || (i == |s.removals| && u == t)
    ensures 0 <= i < |s.removals| ==> Removed(s, t, input).removals[i] == s.removals[i]
  {
    TakeDownFrame(s, t, Target(if t.kind == Reel then Wish else Reel, 0));
  }

  lemma RemovedIsNotRemovable(s: State, t: Target, input: Input)
    ensures !CanRemove(Removed(s, t, input), t)
    ensures CanRemove(s, t) ==> Down(Removed(s, t, input), t)
  {
    if CanRemove(s, t) && !IsHard(t.kind) {
      ChangesTakeDown(t.kind, s.docs[t], s.now);
      OwnTakeDown(s, t);
    }
  }

  /** What could be taken down is down, by a removal in force: the newest, holding whose it was, who made it and why. */
  lemma RemovedIsDown(s: State, t: Target, input: Input)
    ensures !CanRemove(Removed(s, t, input), t)
    ensures CanRemove(s, t) ==>
              var s', i := Removed(s, t, input), |s.removals|;
              && Down(s', t) && ActiveFor(s'.removals, t) == Some(i) && |s'.removals| == i + 1
              && s'.removals[i].removedBy == input.actor && s'.removals[i].reason == input.reason && s'.removals[i].report == input.report
              && s'.removals[i].owner == OwnerOf(t.kind, s.docs[t])
  {
    RemovedIsNotRemovable(s, t, input);
    if CanRemove(s, t) {
      LogsStayDown(s, t);
    }
  }

  /** A takedown of one thing brings no other up. */
  lemma RemovingBringsNothingUp(s: State, t: Target, input: Input, u: Target)
    requires !CanRemove(s, u)
    ensures !CanRemove(Removed(s, t, input), u)
  {
    if CanRemove(s, t) {
      TakeDownFrame(s, t, u);
      if u in s.docs {
        DownIsRead(u, Removed(s, t, input).docs[u], s.docs[u]);
      }
    }
  }

  lemma ActiveIsNotRemovable(base: Option<Doc>, s: State, i: int, t: Target)
    requires Inv(base, s, t) && IsActive(s, i, t)
    ensures !CanRemove(s, t)
  {
    assert HeldDown(base, s, s.removals[i]);
  }

  lemma RemoveKeepsInv(base: Option<Doc>, s: State, t: Target, input: Input, u: Target)
    requires Inv(base, s, u)
    ensures Inv(base, Removed(s, t, input), u)
  {
    var s' := Removed(s, t, input);
    if CanRemove(s, t) {
      forall i ensures IsActive(s', i, u) <==> IsActive(s, i, u) || (i == |s.removals| && u == t) {
        RemoveActives(s, t, input, i, u);
      }
      if u == t {
        forall i ensures !IsActive(s, i, t) {
          if IsActive(s, i, t) { ActiveIsNotRemovable(base, s, i, t); }
        }
        TakenDownIsHeld(base, s, t, s'.removals[|s.removals|]);
        assert IsActive(s', |s.removals|, t);
      } else {
        forall i | IsActive(s, i, u) ensures s'.removals[i] == s.removals[i] {
          RemoveActives(s, t, input, i, u);
        }
        TakeDownFrame(s, t, u);
        UntouchedKeepsInv(base, s, s', u);
      }
    }
  }

  // --- One restore

  /** A removal in force can always be put back, and its target then reads as it did at the start. */
  lemma PutBackIsAsAtStart(base: Option<Doc>, s: State, i: nat)
    requires i < |s.removals| && s.removals[i].restoredBy.None? && HeldDown(base, s, s.removals[i])
    ensures RestoreError(s, i).None?
    ensures AsAtStart(base, PutBack(s, s.removals[i]), s.removals[i].target)
  {
    var r := s.removals[i];
    var t := r.target;
    if !r.hard {
      var back := s.(docs := s.docs[t := s.docs[t] + r.before]);
      FollowedUpFrame(back, t.kind, s.docs[t], t);
      FollowedUpFrame(back.(reminders := back.reminders + [t.id]), t.kind, s.docs[t], t);
      UntouchedStays(base, back, PutBack(s, r), t);
    }
  }

  lemma RestoreActives(s: State, i: nat, actor: Id, j: int, u: Target)
    requires RestoreError(s, i).None?
    ensures IsActive(Restored(s, i, actor), j, u) <==> IsActive(s, j, u) && j != i
    ensures 0 <= j < |s.removals| && j != i ==> Restored(s, i, actor).removals[j] == s.removals[j]
  {
    PutBackFrame(s, s.removals[i], Target(if s.removals[i].target.kind == Reel then Wish else Reel, 0));
  }

  lemma RestoreKeepsInv(base: Option<Doc>, s: State, i: nat, actor: Id, u: Target)
    requires Inv(base, s, u)
    ensures Inv(base, Restored(s, i, actor), u)
  {
    var s' := Restored(s, i, actor);
    if RestoreError(s, i).None? {
      var r := s.removals[i];
      forall j ensures IsActive(s', j, u) <==> IsActive(s, j, u) && j != i {
        RestoreActives(s, i, actor, j, u);
      }
      if u == r.target {
        assert IsActive(s, i, u);
        PutBackIsAsAtStart(base, s, i);
      } else {
        forall j | IsActive(s, j, u) ensures j != i && s'.removals[j] == s.removals[j] {
          RestoreActives(s, i, actor, j, u);
        }
        PutBackFrame(s, r, u);
        UntouchedKeepsInv(base, s, s', u);
      }
    }
  }

  // --- Capsule counts

  lemma SameWishesSameCounts(s: State, s': State)
    requires CountsRight(s) && WishDocsAlike(s, s') && s'.wishCounts == s.wishCounts
    ensures CountsRight(s')
  {
    forall c | c in s'.wishCounts ensures s'.wishCounts[c] == |WishesIn(s'.docs, c)| {
      assert WishesIn(s'.docs, c) == WishesIn(s.docs, c);
    }
  }

  lemma WishLeaves(s: State, t: Target)
    requires CountsRight(s) && t in s.docs && t.kind == MemoryWish
    ensures CountsRight(TakeDown(s, t))
  {
    var s' := TakeDown(s, t);
    forall c | c in s'.wishCounts ensures s'.wishCounts[c] == |WishesIn(s'.docs, c)| {
      assert WishesIn(s'.docs, c) == WishesIn(s.docs, c) - {t};
    }
  }

  lemma OneMoreWish(docs: map<Target, Doc>, t: Target, doc: Doc, c: Id)
    requires t !in docs && t.kind == MemoryWish
    ensures |WishesIn(docs[t := doc], c)| == |WishesIn(docs, c)| + if Read(doc, "capsuleId") == Ref(c) then 1 else 0
  {
    if Read(doc, "capsuleId") == Ref(c) {
      assert WishesIn(docs[t := doc], c) == WishesIn(docs, c) + {t};
    } else {
      assert WishesIn(docs[t := doc], c) == WishesIn(docs, c);
    }
  }

  lemma WishComesBack(s: State, r: Removal)
    requires CountsRight(s) && r.hard && r.target !in s.docs && r.target.kind == MemoryWish
    ensures CountsRight(PutBack(s, r))
  {
    var s' := PutBack(s, r);
    forall c | c in s'.wishCounts ensures s'.wishCounts[c] == |WishesIn(s'.docs, c)| {
      OneMoreWish(s.docs, r.target, r.before, c);
    }
  }

  lemma RemoveKeepsCounts(s: State, t: Target, input: Input)
    requires CountsRight(s)
    ensures CountsRight(Removed(s, t, input))
  {
    if CanRemove(s, t) {
      if t.kind == MemoryWish {
        WishLeaves(s, t);
      } else if !IsHard(t.kind) {
        FollowedUpFrame(s.(docs := s.docs[t := s.docs[t] + Changes(t.kind, s.now)]), t.kind, s.docs[t], t);
        SameWishesSameCounts(s, TakeDown(s, t));
      } else {
        SameWishesSameCounts(s, TakeDown(s, t));
      }
      SameWishesSameCounts(TakeDown(s, t), Removed(s, t, input));
    }
  }

  lemma RestoreKeepsCounts(s: State, i: nat, actor: Id)
    requires CountsRight(s) && (RestoreError(s, i).None? ==> s.removals[i].hard == IsHard(s.removals[i].target.kind))
    ensures CountsRight(Restored(s, i, actor))
  {
    if RestoreError(s, i).None? {
      var r := s.removals[i];
      if r.target.kind == MemoryWish {
        WishComesBack(s, r);
      } else if !r.hard {
        var back := s.(docs := s.docs[r.target := s.docs[r.target] + r.before]);
        FollowedUpFrame(back, r.target.kind, s.docs[r.target], r.target);
        FollowedUpFrame(back.(reminders := back.reminders + [r.target.id]), r.target.kind, s.docs[r.target], r.target);
        SameWishesSameCounts(s, PutBack(s, r));
      } else {
        SameWishesSameCounts(s, PutBack(s, r));
      }
      SameWishesSameCounts(PutBack(s, r), Restored(s, i, actor));
    }
  }

  // --- Whole runs

  /** Nothing has been taken down by an admin yet, and every capsule's count is right. */
  ghost predicate IsStart(s: State) {
    s.removals == [] && CountsRight(s)
  }

  lemma StepKeepsModes(s: State, step: Step)
    requires ModesRight(s)
    ensures ModesRight(Next(s, step))
  {
    match step {
      case DoRemove(t, input) =>
        if CanRemove(s, t) {
          TakeDownFrame(s, t, Target(if t.kind == Reel then Wish else Reel, 0));
        }
      case DoRestore(i, actor) =>
        if RestoreError(s, i).None? {
          PutBackFrame(s, s.removals[i], Target(if s.removals[i].target.kind == Reel then Wish else Reel, 0));
        }
      case _ =>
    }
  }

  lemma StepKeepsCounts(s: State, step: Step)
    requires CountsRight(s) && ModesRight(s)
    ensures CountsRight(Next(s, step)) && ModesRight(Next(s, step))
  {
    StepKeepsModes(s, step);
    match step {
      case DoRemove(t, input) => RemoveKeepsCounts(s, t, input);
      case DoRestore(i, actor) => RestoreKeepsCounts(s, i, actor);
      case Compile(_, _, _) => SameWishesSameCounts(s, Next(s, step));
      case Elapse(_) => SameWishesSameCounts(s, Next(s, step));
    }
  }

  /** Each capsule's count stays its number of wishes, over any run at all. */
  lemma {:induction false} CountsStayRight(s: State, steps: seq<Step>)
    requires CountsRight(s) && ModesRight(s)
    ensures CountsRight(Run(s, steps)) && ModesRight(Run(s, steps))
    decreases |steps|
  {
    if steps != [] {
      StepKeepsCounts(s, steps[0]);
      CountsStayRight(Next(s, steps[0]), steps[1..]);
    }
  }

  /** A target's document as at the start, or, of a reel, as compiled since. */
  function BaseAfter(base: Option<Doc>, s: State, t: Target, step: Step): Option<Doc> {
    if step.Compile? && t == Target(Reel, step.reel) && Lands(s, step.reel) && base.Some?
    then Some(base.value + CompiledFields(step.key, step.durationMs)) else base
  }

  /** A compile that lands on a reel while a removal of it is in force. */
  predicate Spoils(s: State, t: Target, step: Step) {
    step.Compile? && t == Target(Reel, step.reel) && Lands(s, step.reel) && ActiveFor(s.removals, t).Some?
  }

  lemma NoneActiveIsNone(s: State, t: Target)
    ensures ActiveFor(s.removals, t).None? <==> NoneActive(s, t)
  {
    if ActiveFor(s.removals, t).Some? {
      assert IsActive(s, ActiveFor(s.removals, t).value, t);
    }
  }

  lemma CompileKeepsInv(base: Option<Doc>, s: State, t: Target, step: Step)
    requires Inv(base, s, t) && step.Compile? && !Spoils(s, t, step)
    ensures Inv(BaseAfter(base, s, t, step), Next(s, step), t)
  {
    var s' := Next(s, step);
    assert forall i :: IsActive(s', i, t) <==> IsActive(s, i, t);
    if t == Target(Reel, step.reel) && Lands(s, step.reel) {
      NoneActiveIsNone(s, t);
      var fields := CompiledFields(step.key, step.durationMs);
      assert forall f :: Read(s.docs[t] + fields, f) == if f in fields then fields[f] else Read(s.docs[t], f);
      assert forall f :: Read(base.value + fields, f) == if f in fields then fields[f] else Read(base.value, f);
      assert forall f :: ReadsAs(t, f, Read(s.docs[t], f), Read(base.value, f));
      assert SameReads(t, s.docs[t] + fields, base.value + fields);
    } else {
      UntouchedKeepsInv(base, s, s', t);
    }
  }

  lemma StepKeepsInv(base: Option<Doc>, s: State, t: Target, step: Step)
    requires Inv(base, s, t) && !Spoils(s, t, step)
    ensures Inv(BaseAfter(base, s, t, step), Next(s, step), t)
  {
    match step {
      case DoRemove(u, input) => RemoveKeepsInv(base, s, u, input, t);
      case DoRestore(i, actor) => RestoreKeepsInv(base, s, i, actor, t);
      case Compile(_, _, _) => CompileKeepsInv(base, s, t, step);
      case Elapse(ms) =>
        assert forall i :: IsActive(Next(s, step), i, t) <==> IsActive(s, i, t);
        UntouchedKeepsInv(base, s, Next(s, step), t);
    }
  }

  /** No compile lands on the target, a reel, while a removal of it is in force; of any other target there is nothing to ask. */
  ghost predicate IsSpared(s: State, t: Target, steps: seq<Step>)
    decreases |steps|
  {
    steps == [] || (!Spoils(s, t, steps[0]) && IsSpared(Next(s, steps[0]), t, steps[1..]))
  }

  function BaseAfterAll(base: Option<Doc>, s: State, t: Target, steps: seq<Step>): Option<Doc>
    decreases |steps|
  {
    if steps == [] then base else BaseAfterAll(BaseAfter(base, s, t, steps[0]), Next(s, steps[0]), t, steps[1..])
  }

  lemma {:induction false} OnlyReelsAreSpoilt(base: Option<Doc>, s: State, t: Target, steps: seq<Step>)
    requires t.kind != Reel
    ensures IsSpared(s, t, steps) && BaseAfterAll(base, s, t, steps) == base
    decreases |steps|
  {
    if steps != [] {
      OnlyReelsAreSpoilt(base, Next(s, steps[0]), t, steps[1..]);
    }
  }

  lemma {:induction false} RunKeepsInv(base: Option<Doc>, s: State, t: Target, steps: seq<Step>)
    requires Inv(base, s, t) && IsSpared(s, t, steps)
    ensures Inv(BaseAfterAll(base, s, t, steps), Run(s, steps), t)
    decreases |steps|
  {
    if steps != [] {
      StepKeepsInv(base, s, t, steps[0]);
      RunKeepsInv(BaseAfter(base, s, t, steps[0]), Next(s, steps[0]), t, steps[1..]);
    }
  }

  function BaseOf(s: State, t: Target): Option<Doc> {
    if t in s.docs then Some(s.docs[t]) else None
  }

  lemma StartHolds(s: State, t: Target)
    requires IsStart(s)
    ensures Inv(BaseOf(s, t), s, t) && ModesRight(s)
  {
  }

  /** A soft thing is down when its plan says so, a hard one when it is gone. */
  predicate Down(s: State, t: Target) {
    if IsHard(t.kind) then t !in s.docs else t in s.docs && IsDown(t.kind, s.docs[t])
  }

  ghost predicate OneInForce(s: State, t: Target) {
    forall i, j :: IsActive(s, i, t) && IsActive(s, j, t) ==> i == j
  }

  /** A takedown of what has a removal in force already, and yet is up. */
  predicate Doubles(s: State, t: Target, step: Step) {
    step.DoRemove? && step.target == t && CanRemove(s, t) && ActiveFor(s.removals, t).Some?
  }

  lemma StepActives(s: State, t: Target, step: Step, i: int)
    ensures IsActive(Next(s, step), i, t) <==>
              || (IsActive(s, i, t) && !(step.DoRestore? && RestoreError(s, step.removal).None? && i == step.removal))
              || (step.DoRemove? && step.target == t && CanRemove(s, t) && i == |s.removals|)
  {
    match step
    case DoRemove(u, input) =>
      if CanRemove(s, u) {
        RemoveActives(s, u, input, i, t);
      }
    case DoRestore(j, actor) =>
      if RestoreError(s, j).None? {
        RestoreActives(s, j, actor, i, t);
      }
    case _ =>
  }

  /** A step leaves a target with at most one removal in force, just if it is no such takedown. */
  lemma DoublingIsExact(s: State, t: Target, step: Step)
    requires OneInForce(s, t)
    ensures OneInForce(Next(s, step), t) <==> !Doubles(s, t, step)
  {
    NoneActiveIsNone(s, t);
    forall i ensures IsActive(Next(s, step), i, t) <==>
              || (IsActive(s, i, t) && !(step.DoRestore? && RestoreError(s, step.removal).None? && i == step.removal))
              || (step.DoRemove? && step.target == t && CanRemove(s, t) && i == |s.removals|)
    {
      StepActives(s, t, step, i);
    }
    if Doubles(s, t, step) {
      assert IsActive(Next(s, step), ActiveFor(s.removals, t).value, t) && IsActive(Next(s, step), |s.removals|, t);
    }
  }

  ghost predicate NeverDoubles(s: State, t: Target, steps: seq<Step>)
    decreases |steps|
  {
    steps == [] || (!Doubles(s, t, steps[0]) && NeverDoubles(Next(s, steps[0]), t, steps[1..]))
  }

  ghost predicate OneInForceThroughout(s: State, t: Target, steps: seq<Step>)
    decreases |steps|
  {
    OneInForce(s, t) && (steps == [] || OneInForceThroughout(Next(s, steps[0]), t, steps[1..]))
  }

  /** All through a run a target has at most one removal in force, just if no step of it doubles one. */
  lemma {:induction false} OneInForceIsExact(s: State, t: Target, steps: seq<Step>)
    requires OneInForce(s, t)
    ensures OneInForceThroughout(s, t, steps) <==> NeverDoubles(s, t, steps)
    decreases |steps|
  {
    if steps != [] {
      DoublingIsExact(s, t, steps[0]);
      if !Doubles(s, t, steps[0]) {
        OneInForceIsExact(Next(s, steps[0]), t, steps[1..]);
      }
    }
  }

  lemma {:induction false} SparedNeverDoubles(base: Option<Doc>, s: State, t: Target, steps: seq<Step>)
    requires Inv(base, s, t) && IsSpared(s, t, steps)
    ensures NeverDoubles(s, t, steps)
    decreases |steps|
  {
    if steps != [] {
      NoneActiveIsNone(s, t);
      if Doubles(s, t, steps[0]) {
        ActiveIsNotRemovable(base, s, ActiveFor(s.removals, t).value, t);
      }
      StepKeepsInv(base, s, t, steps[0]);
      SparedNeverDoubles(BaseAfter(base, s, t, steps[0]), Next(s, steps[0]), t, steps[1..]);
    }
  }

  /** All through a run, each target has at most one removal not put back. */
  lemma OneRemovalInForce(start: State, steps: seq<Step>, t: Target)
    requires IsStart(start) && IsSpared(start, t, steps)
    ensures OneInForceThroughout(start, t, steps)
  {
    StartHolds(start, t);
    SparedNeverDoubles(BaseOf(start, t), start, t, steps);
    OneInForceIsExact(start, t, steps);
  }

  /** Down exactly when a removal in force is found for it. */
  ghost predicate Matches(s: State, t: Target) {
    Down(s, t) <==> ActiveFor(s.removals, t).Some?
  }

  lemma InvMatches(base: Option<Doc>, s: State, t: Target)
    requires Inv(base, s, t) && base.Some? && !IsDown(t.kind, base.value)
    ensures Matches(s, t)
  {
    NoneActiveIsNone(s, t);
    var active := ActiveFor(s.removals, t);
    if active.Some? {
      assert IsActive(s, active.value, t);
    } else {
      DownIsRead(t, s.docs[t], base.value);
    }
  }

  lemma BaseStaysUp(base: Option<Doc>, s: State, t: Target, step: Step)
    requires base.Some? && !IsDown(t.kind, base.value)
    ensures BaseAfter(base, s, t, step).Some? && !IsDown(t.kind, BaseAfter(base, s, t, step).value)
  {
  }

  lemma SpoiltIsUp(s: State, t: Target, step: Step)
    requires Spoils(s, t, step)
    ensures !Down(Next(s, step), t) && ActiveFor(Next(s, step).removals, t).Some?
  {
    assert Read(Next(s, step).docs[t], "reelMediaUrl") == Text(PublicUrl(step.key));
  }

  /** Of a target that started up, a step leaves it down just when a removal is in force, if and only if it spoils nothing. */
  lemma SpoilingIsExact(base: Option<Doc>, s: State, t: Target, step: Step)
    requires Inv(base, s, t) && base.Some? && !IsDown(t.kind, base.value)
    ensures !Spoils(s, t, step) <==> Matches(Next(s, step), t)
  {
    if Spoils(s, t, step) {
      SpoiltIsUp(s, t, step);
    } else {
      StepKeepsInv(base, s, t, step);
      BaseStaysUp(base, s, t, step);
      InvMatches(BaseAfter(base, s, t, step), Next(s, step), t);
    }
  }

  /** A compile that lands shows the new video; asked for once it lands once, a second of the same reel doing nothing. */
  lemma CompilesOnce(s: State, reel: Id, key: string, durationMs: int, again: string, againMs: int)
    requires Lands(s, reel)
    ensures var t, s' := Target(Reel, reel), Compiled(s, reel, key, durationMs);
            && t in s'.docs && IsReleased(s', reel) && !Lands(s', reel) && !IsDown(Reel, s'.docs[t])
            && Read(s'.docs[t], "reelStorageKey") == Text(key) && Read(s'.docs[t], "reelMediaUrl") == Text(PublicUrl(key))
            && Read(s'.docs[t], "durationMs") == Number(durationMs) && Read(s'.docs[t], "failureReason") == Null
            && s'.docs.Keys == s.docs.Keys && (forall u :: u in s.docs && u != t ==> s'.docs[u] == s.docs[u])
            && Compiled(s', reel, again, againMs) == s'
  {
  }

  lemma SpoiltCanDouble(s: State, t: Target, step: Step, input: Input)
    requires Spoils(s, t, step)
    ensures Doubles(Next(s, step), t, DoRemove(t, input))
  {
    SpoiltIsUp(s, t, step);
  }

  lemma ReelGoesDown(s: State, reel: Target, input: Input)
    requires reel.kind == Reel && CanRemove(s, reel)
    ensures var down := Removed(s, reel, input);
            && down.docs == s.docs[reel := s.docs[reel] + Changes(Reel, s.now)] && down.compiles == s.compiles
            && IsActive(down, |s.removals|, reel)
            && forall wish: Target :: wish.kind == Wish && CanRemove(s, wish) ==> CanRemove(down, wish) && down.docs[wish] == s.docs[wish]
  {
  }

  lemma WishLeavesReel(s: State, reel: Target, wish: Target, input: Input, i: int)
    requires reel.kind == Reel && reel in s.docs && wish.kind == Wish && CanRemove(s, wish) && IsActive(s, i, reel)
    requires Read(s.docs[reel], "status") == Text("released") && Read(s.docs[wish], "collectionId") == Ref(reel.id)
    ensures var asked := Removed(s, wish, input);
            && asked.compiles == s.compiles + [reel.id] && Lands(asked, reel.id) && ActiveFor(asked.removals, reel).Some?
  {
    var asked := Removed(s, wish, input);
    RemoveActives(s, wish, input, i, reel);
    NoneActiveIsNone(asked, reel);
  }

  /** A wish leaves while its released reel is down: the compile this asks for spoils the reel's removal, and another can follow. */
  lemma AWishSpoilsItsReel(s: State, reel: Target, wish: Target, input: Input, key: string, durationMs: int)
    requires reel.kind == Reel && wish.kind == Wish && CanRemove(s, reel) && CanRemove(s, wish)
    requires Read(s.docs[reel], "status") == Text("released") && Read(s.docs[wish], "collectionId") == Ref(reel.id)
    ensures var asked := Next(Next(s, DoRemove(reel, input)), DoRemove(wish, input));
            var compile := Compile(reel.id, key, durationMs);
            && asked.compiles == s.compiles + [reel.id]
            && Spoils(asked, reel, compile) && Doubles(Next(asked, compile), reel, DoRemove(reel, input))
  {
    var down := Removed(s, reel, input);
    ReelGoesDown(s, reel, input);
    WishLeavesReel(down, reel, wish, input, |s.removals|);
    SpoiltCanDouble(Removed(down, wish, input), reel, Compile(reel.id, key, durationMs), input);
  }

  ghost predicate MatchesThroughout(s: State, t: Target, steps: seq<Step>)
    decreases |steps|
  {
    Matches(s, t) && (steps == [] || MatchesThroughout(Next(s, steps[0]), t, steps[1..]))
  }

  lemma {:induction false} MatchesWhileSpared(base: Option<Doc>, s: State, t: Target, steps: seq<Step>)
    requires Inv(base, s, t) && base.Some? && !IsDown(t.kind, base.value)
    ensures MatchesThroughout(s, t, steps) <==> IsSpared(s, t, steps)
    decreases |steps|
  {
    InvMatches(base, s, t);
    if steps != [] {
      SpoilingIsExact(base, s, t, steps[0]);
      if Spoils(s, t, steps[0]) {
        assert !Matches(Next(s, steps[0]), t);
      } else {
        StepKeepsInv(base, s, t, steps[0]);
        BaseStaysUp(base, s, t, steps[0]);
        MatchesWhileSpared(BaseAfter(base, s, t, steps[0]), Next(s, steps[0]), t, steps[1..]);
      }
    }
  }

  /**
   A target that started up is, at every state of a run, down just when a removal of it is in force, if and only if no
   compile lands on it while one is; which can only be so of a reel.
   */
  lemma DownExactlyWhenRemoved(start: State, steps: seq<Step>, t: Target)
    requires IsStart(start) && t in start.docs && !Down(start, t)
    ensures MatchesThroughout(start, t, steps) <==> IsSpared(start, t, steps)
    ensures t.kind != Reel ==> MatchesThroughout(start, t, steps)
  {
    StartHolds(start, t);
    MatchesWhileSpared(BaseOf(start, t), start, t, steps);
    if t.kind != Reel {
      OnlyReelsAreSpoilt(None, start, t, steps);
    }
  }

  /**
   Whatever has happened, a removal in force can be put back, and every field then reads as it did at the start, or, of
   a reel, as last compiled. A released reel may be being compiled again.
   */
  lemma PuttingBackGivesEverythingBack(start: State, steps: seq<Step>, t: Target, actor: Id, field: string)
    requires IsStart(start) && IsSpared(start, t, steps)
    ensures var end, base := Run(start, steps), BaseAfterAll(BaseOf(start, t), start, t, steps);
            && (t.kind != Reel ==> base == BaseOf(start, t))
            && match ActiveFor(end.removals, t)
               case Some(i) =>
                 && RestoreError(end, i).None?
                 && base.Some? && t in Restored(end, i, actor).docs
                 && ReadsAs(t, field, Read(Restored(end, i, actor).docs[t], field), Read(base.value, field))
               case None =>
                 && (t in end.docs <==> base.Some?)
                 && (t in end.docs ==> ReadsAs(t, field, Read(end.docs[t], field), Read(base.value, field)))
  {
    var end, base := Run(start, steps), BaseAfterAll(BaseOf(start, t), start, t, steps);
    StartHolds(start, t);
    RunKeepsInv(BaseOf(start, t), start, t, steps);
    if t.kind != Reel {
      OnlyReelsAreSpoilt(BaseOf(start, t), start, t, steps);
    }
    NoneActiveIsNone(end, t);
    match ActiveFor(end.removals, t) {
      case Some(i) =>
        assert IsActive(end, i, t);
        PutBackIsAsAtStart(base, end, i);
      case None =>
    }
  }

  // ---------------------------------------------------------------------------
  // What follows from taking down and putting back
  // ---------------------------------------------------------------------------

  function LogOf<T>(logs: seq<T>, more: Option<T>): seq<T> {
    if more.Some? then logs + [more.value] else logs
  }

  predicate IsReleased(s: State, reel: Id) {
    Target(Reel, reel) in s.docs && Read(s.docs[Target(Reel, reel)], "status") == Text("released")
  }

  /** The list to be counted anew when a thing leaves or comes back: an item's, if it is on one. */
  function ListOf(kind: Kind, doc: Doc): Option<Id> {
    if kind == Item && Read(doc, "wishlistId").Ref? then Some(Read(doc, "wishlistId").id) else None
  }

  /** The reel to be compiled anew: a wish's, if it has been released. */
  function ReelOf(s: State, kind: Kind, doc: Doc): Option<Id> {
    if kind == Wish && Read(doc, "collectionId").Ref? && IsReleased(s, Read(doc, "collectionId").id)
    then Some(Read(doc, "collectionId").id) else None
  }

  /** Just that list and that reel have been asked for, once, and the reel waits to be released again. */
  predicate AskedAnew(s: State, s': State, kind: Kind, doc: Doc) {
    && s'.recounts == LogOf(s.recounts, ListOf(kind, doc))
    && s'.compiles == LogOf(s.compiles, ReelOf(s, kind, doc))
    && (ReelOf(s, kind, doc).Some? ==>
          var reel := Target(Reel, ReelOf(s, kind, doc).value);
          reel in s'.docs && Read(s'.docs[reel], "status") == Text("releasing"))
  }

  lemma RemovalAsksAnew(s: State, t: Target, input: Input)
    requires CanRemove(s, t)
    ensures AskedAnew(s, Removed(s, t, input), t.kind, s.docs[t]) && Removed(s, t, input).reminders == s.reminders
  {
  }

  /** Putting back asks anew as taking down did, and sets the reminders of an event again that was published. */
  lemma RestoreAsksAnew(s: State, i: nat, actor: Id)
    requires RestoreError(s, i).None? && s.removals[i].hard == IsHard(s.removals[i].target.kind)
    ensures var r, s' := s.removals[i], Restored(s, i, actor);
            && AskedAnew(s, s', r.target.kind, if r.hard then r.before else s.docs[r.target])
            && s'.reminders == LogOf(s.reminders, if r.target.kind == Event && Read(r.before, "status") == Text("published") then Some(r.target.id) else None)
  {
  }

  /** Taking down and putting back write no rows and tell nobody by themselves. */
  lemma LogsStayDown(s: State, t: Target)
    requires t in s.docs
    ensures TakeDown(s, t).audit == s.audit && TakeDown(s, t).notices == s.notices && TakeDown(s, t).removals == s.removals
  {
  }

  lemma LogsStayUp(s: State, r: Removal)
    requires r.hard || r.target in s.docs
    ensures PutBack(s, r).audit == s.audit && PutBack(s, r).notices == s.notices
  {
  }

  /** What a removal's own audit row says of the target afterwards is what it reads, times aside. */
  lemma RowOfRemoval(s: State, t: Target, input: Input)
    requires CanRemove(s, t) && input.report.None?
    ensures var removed, soft := Removed(s, t, input), !IsHard(t.kind);
            && |removed.audit| == |s.audit| + 1
            && var row := removed.audit[|s.audit|];
               && row.actor == input.actor && row.target == t
               && row.before == (if soft then BeforeOf(s, t) else map["exists" := Flag(true)])
               && row.after == (if soft then ShownAfter(t.kind, 0) else map["exists" := Flag(false)])
  {
    LogsStayDown(s, t);
    ShownIsTimeless(t.kind, s.now);
  }

  lemma ShownIsTimeless(kind: Kind, now: int)
    ensures ShownAfter(kind, now) == ShownAfter(kind, 0)
    ensures ShownAfter(kind, now).Keys == Changes(kind, now).Keys - if kind == Event then {"cancelledAt"} else {}
  {
  }

  lemma ShownIsRead(s: State, t: Target, field: string)
    requires CanRemove(s, t) && !IsHard(t.kind) && field in ShownAfter(t.kind, 0)
    ensures t in TakeDown(s, t).docs
    ensures var now := Read(TakeDown(s, t).docs[t], field); ShownAfter(t.kind, 0)[field] == if now.Instant? then Text("set") else now
  {
    OwnTakeDown(s, t);
  }

  /** A restore's row, however much later, is the mirror of the removal's. */
  lemma RowOfRestore(s: State, i: nat, actor: Id)
    requires RestoreError(s, i).None?
    ensures var restored, r := Restored(s, i, actor), s.removals[i];
            && |restored.audit| == |s.audit| + 1
            && var row := restored.audit[|s.audit|];
               && row.actor == actor && row.target == r.target
               && row.after == (if r.hard then map["exists" := Flag(true)] else r.before)
               && row.before == (if r.hard then map["exists" := Flag(false)] else ShownAfter(r.target.kind, 0))
  {
    LogsStayUp(s, s.removals[i]);
    ShownIsTimeless(s.removals[i].target.kind, s.now);
  }

  // --- Owners told and audit rows

  /** Who is to be told of some removals: the owner of each thing that has one. */
  function ToldOf(removals: seq<Removal>): seq<(Id, Target)> {
    if removals == [] then []
    else
      var last := removals[|removals| - 1];
      LogOf(ToldOf(removals[..|removals| - 1]), if last.owner.Some? then Some((last.owner.value, last.target)) else None)
  }

  function Tally<T>(xs: seq<T>, p: T -> bool): nat {
    if xs == [] then 0 else Tally(xs[..|xs| - 1], p) + if p(xs[|xs| - 1]) then 1 else 0
  }

  function RowFor(action: string, t: Target): AuditRow -> bool {
    (row: AuditRow) => row.action == action && row.target == t
  }

  function Unreported(t: Target): Removal -> bool {
    (r: Removal) => r.target == t && r.report.None?
  }

  function PutBackOf(t: Target): Removal -> bool {
    (r: Removal) => r.target == t && r.restoredBy.Some?
  }

  /** Every owner has been told of each removal, once and in order, and the audit trail has every removal of the target but those reports cover, and every restore. */
  ghost predicate Accounted(s: State, t: Target) {
    && s.notices == ToldOf(s.removals)
    && Tally(s.audit, RowFor("content.remove", t)) == Tally(s.removals, Unreported(t))
    && Tally(s.audit, RowFor("content.restore", t)) == Tally(s.removals, PutBackOf(t))
  }

  lemma OneMore<T>(xs: seq<T>, x: T, p: T -> bool)
    ensures Tally(xs + [x], p) == Tally(xs, p) + if p(x) then 1 else 0
  {
    assert (xs + [x])[..|xs|] == xs;
  }

  lemma OneMoreTold(removals: seq<Removal>, r: Removal)
    ensures ToldOf(removals + [r]) == LogOf(ToldOf(removals), if r.owner.Some? then Some((r.owner.value, r.target)) else None)
  {
    assert (removals + [r])[..|removals|] == removals;
  }

  lemma {:induction false} OneChanged<T>(xs: seq<T>, i: nat, x: T, p: T -> bool)
    requires i < |xs|
    ensures Tally(xs[i := x], p) + (if p(xs[i]) then 1 else 0) == Tally(xs, p) + if p(x) then 1 else 0
  {
    if i < |xs| - 1 {
      assert xs[i := x][..|xs| - 1] == xs[..|xs| - 1][i := x];
      OneChanged(xs[..|xs| - 1], i, x, p);
    } else {
      assert xs[i := x][..|xs| - 1] == xs[..|xs| - 1];
    }
  }

  lemma {:induction false} ToldOnce(removals: seq<Removal>, i: nat, r: Removal)
    requires i < |removals| && r.owner == removals[i].owner && r.target == removals[i].target
    ensures ToldOf(removals[i := r]) == ToldOf(removals)
  {
    if i < |removals| - 1 {
      assert removals[i := r][..|removals| - 1] == removals[..|removals| - 1][i := r];
      ToldOnce(removals[..|removals| - 1], i, r);
    } else {
      assert removals[i := r][..|removals| - 1] == removals[..|removals| - 1];
    }
  }

  lemma RemoveKeepsAccount(s: State, t: Target, input: Input, u: Target)
    requires Accounted(s, u)
    ensures Accounted(Removed(s, t, input), u)
  {
    if CanRemove(s, t) {
      var s' := Removed(s, t, input);
      var removal := Removal(t, IsHard(t.kind), BeforeOf(s, t), OwnerOf(t.kind, s.docs[t]), input.reason, input.report, input.actor, None);
      LogsStayDown(s, t);
      assert s'.removals == s.removals + [removal];
      OneMoreTold(s.removals, removal);
      OneMore(s.removals, removal, Unreported(u));
      OneMore(s.removals, removal, PutBackOf(u));
      if input.report.None? {
        OneMore(s.audit, s'.audit[|s.audit|], RowFor("content.remove", u));
        OneMore(s.audit, s'.audit[|s.audit|], RowFor("content.restore", u));
      }
    }
  }

  lemma RestoreKeepsAccount(s: State, i: nat, actor: Id, u: Target)
    requires Accounted(s, u)
    ensures Accounted(Restored(s, i, actor), u)
  {
    if RestoreError(s, i).None? {
      var s', r := Restored(s, i, actor), s.removals[i].(restoredBy := Some(actor));
      RestoredRemovals(s, i, actor);
      ToldOnce(s.removals, i, r);
      OneChanged(s.removals, i, r, Unreported(u));
      OneChanged(s.removals, i, r, PutBackOf(u));
      OneMore(s.audit, s'.audit[|s.audit|], RowFor("content.remove", u));
      OneMore(s.audit, s'.audit[|s.audit|], RowFor("content.restore", u));
    }
  }

  lemma RestoredRemovals(s: State, i: nat, actor: Id)
    requires RestoreError(s, i).None?
    ensures var s' := Restored(s, i, actor);
            && s'.removals == s.removals[i := s.removals[i].(restoredBy := Some(actor))] && s'.notices == s.notices
            && |s'.audit| == |s.audit| + 1 && s'.audit == s.audit + [s'.audit[|s.audit|]]
            && s'.audit[|s.audit|].action == "content.restore" && s'.audit[|s.audit|].target == s.removals[i].target
  {
    LogsStayUp(s, s.removals[i]);
  }

  /** And so over any run. */
  lemma {:induction false} EverythingIsAccounted(s: State, steps: seq<Step>, t: Target)
    requires Accounted(s, t)
    ensures Accounted(Run(s, steps), t)
    decreases |steps|
  {
    if steps != [] {
      match steps[0] {
        case DoRemove(u, input) => RemoveKeepsAccount(s, u, input, t);
        case DoRestore(i, actor) => RestoreKeepsAccount(s, i, actor, t);
        case _ =>
      }
      EverythingIsAccounted(Next(s, steps[0]), steps[1..], t);
    }
  }

  lemma RemovalStays(s: State, step: Step, i: nat)
    requires i < |s.removals|
    ensures i < |Next(s, step).removals|
    ensures Next(s, step).removals[i].(restoredBy := None) == s.removals[i].(restoredBy := None)
  {
    match step
    case DoRemove(t, input) =>
      if CanRemove(s, t) {
        RemoveActives(s, t, input, i, t);
      }
    case DoRestore(j, actor) =>
      if RestoreError(s, j).None? {
        PutBackFrame(s, s.removals[j], Target(if s.removals[j].target.kind == Reel then Wish else Reel, 0));
      }
    case _ =>
  }

  /** What is hidden and not deleted has its document for good. */
  lemma SoftStays(s: State, step: Step, t: Target)
    requires ModesRight(s) && !IsHard(t.kind) && t in s.docs
    ensures t in Next(s, step).docs
  {
    match step
    case DoRemove(u, input) =>
      if CanRemove(s, u) && u == t {
        OwnTakeDown(s, t);
      } else if CanRemove(s, u) {
        TakeDownFrame(s, u, t);
      }
    case DoRestore(j, actor) =>
      if RestoreError(s, j).None? && s.removals[j].target == t {
        SoftComesBack(s, s.removals[j]);
      } else if RestoreError(s, j).None? {
        PutBackFrame(s, s.removals[j], t);
      }
    case _ =>
  }

  lemma SoftComesBack(s: State, r: Removal)
    requires !r.hard && r.target in s.docs
    ensures r.target in PutBack(s, r).docs && PutBack(s, r).docs[r.target] == s.docs[r.target] + r.before
  {
    var t := r.target;
    var back := s.(docs := s.docs[t := s.docs[t] + r.before]);
    FollowedUpFrame(back, t.kind, s.docs[t], t);
    FollowedUpFrame(back.(reminders := back.reminders + [t.id]), t.kind, s.docs[t], t);
  }

  lemma {:induction false} RemovalStaysInRun(s: State, steps: seq<Step>, i: nat, t: Target)
    requires ModesRight(s) && !IsHard(t.kind) && t in s.docs && i < |s.removals|
    ensures i < |Run(s, steps).removals| && t in Run(s, steps).docs
    ensures Run(s, steps).removals[i].(restoredBy := None) == s.removals[i].(restoredBy := None)
    decreases |steps|
  {
    if steps != [] {
      RemovalStays(s, steps[0], i);
      SoftStays(s, steps[0], t);
      StepKeepsModes(s, steps[0]);
      RemovalStaysInRun(Next(s, steps[0]), steps[1..], i, t);
    }
  }

  lemma SoftRemovalKept(s: State, t: Target, input: Input)
    requires ModesRight(s) && CanRemove(s, t) && !IsHard(t.kind)
    ensures var removed, i := Removed(s, t, input), |s.removals|;
            && ModesRight(removed) && t in removed.docs && i < |removed.removals|
            && removed.removals[i].target == t && !removed.removals[i].hard
            && removed.removals[i].before == Kept(s.docs[t], Changes(t.kind, s.now))
  {
    OwnTakeDown(s, t);
    RemoveActives(s, t, input, |s.removals|, t);
    StepKeepsModes(s, DoRemove(t, input));
  }

  lemma SoftSetsBack(s: State, i: nat, doc: Doc, changes: Doc, actor: Id, field: string)
    requires i < |s.removals| && !s.removals[i].hard && s.removals[i].target in s.docs && s.removals[i].before == Kept(doc, changes)
    ensures RestoreError(s, i) == if s.removals[i].restoredBy.Some? then Some(AlreadyRestored) else None
    ensures RestoreError(s, i).None? ==>
              var t := s.removals[i].target;
              && t in Restored(s, i, actor).docs
              && Read(Restored(s, i, actor).docs[t], field) == Read(if field in changes then doc else s.docs[t], field)
  {
    if RestoreError(s, i).None? {
      SoftComesBack(s, s.removals[i]);
    }
  }

  /**
   Whatever comes after a soft takedown, a compile of the reel too, it can be put back once: the fields it set then read
   as they did before it, and the target's others as they do now.
   */
  lemma RestoreSetsBack(s: State, t: Target, input: Input, steps: seq<Step>, actor: Id, field: string)
    requires ModesRight(s) && CanRemove(s, t) && !IsHard(t.kind)
    ensures var end, i := Run(Removed(s, t, input), steps), |s.removals|;
            && i < |end.removals| && t in end.docs
            && RestoreError(end, i) == (if end.removals[i].restoredBy.Some? then Some(AlreadyRestored) else None)
            && (RestoreError(end, i).None? ==>
                  && t in Restored(end, i, actor).docs
                  && Read(Restored(end, i, actor).docs[t], field) ==
                     Read(if field in Changes(t.kind, 0) then s.docs[t] else end.docs[t], field))
  {
    var removed, i := Removed(s, t, input), |s.removals|;
    SoftRemovalKept(s, t, input);
    RemovalStaysInRun(removed, steps, i, t);
    ChangesTakeDown(t.kind, s.docs[t], s.now);
    SoftSetsBack(Run(removed, steps), i, s.docs[t], Changes(t.kind, s.now), actor, field);
  }

  // ---------------------------------------------------------------------------
  // The service
  // ---------------------------------------------------------------------------

  class TakedownService {
    var docs: map<Target, Doc>
    var wishCounts: map<Id, int>
    var removals: seq<Removal>
    var audit: seq<AuditRow>
    var notices: seq<(Id, Target)>
    var recounts: seq<Id>
    var compiles: seq<Id>
    var reminders: seq<Id>
    var now: int

    function View(): State
      reads this
    {
      State(docs, wishCounts, removals, audit, notices, recounts, compiles, reminders, now)
    }

    constructor (s: State)
      ensures View() == s
    {
      docs, wishCounts, removals, audit := s.docs, s.wishCounts, s.removals, s.audit;
      notices, recounts, compiles, reminders, now := s.notices, s.recounts, s.compiles, s.reminders, s.now;
    }

    method RecompileIfReleased(reel: Id)
      modifies this
      ensures View() == Recompiled(old(View()), reel)
    {
      var t := Target(Reel, reel);
      if t in docs && Read(docs[t], "status") == Text("released") {
        docs := docs[t := docs[t]["status" := Text("releasing")]];
        compiles := compiles + [reel];
      }
    }

    method AfterHard(kind: Kind, doc: Doc, delta: int)
      modifies this
      ensures View() == Counted(old(View()), kind, doc, delta)
    {
      var capsule := Read(doc, "capsuleId");
      if kind == MemoryWish && capsule.Ref? && capsule.id in wishCounts {
        wishCounts := wishCounts[capsule.id := wishCounts[capsule.id] + delta];
      }
    }

    method AfterSoft(kind: Kind, doc: Doc)
      modifies this
      ensures View() == FollowedUp(old(View()), kind, doc)
    {
      var list, reel := Read(doc, "wishlistId"), Read(doc, "collectionId");
      if kind == Item && list.Ref? {
        recounts := recounts + [list.id];
      }
      if kind == Wish && reel.Ref? {
        RecompileIfReleased(reel.id);
      }
    }

    /** Deletes or hides a document, and gives what is kept of it. */
    method Lower(t: Target) returns (before: Doc)
      requires t in docs
      modifies this
      ensures View() == TakeDown(old(View()), t) && before == BeforeOf(old(View()), t)
    {
      var doc := docs[t];
      if IsHard(t.kind) {
        before := doc;
        docs := docs - {t};
        AfterHard(t.kind, doc, -1);
      } else {
        before := Kept(doc, Changes(t.kind, now));
        docs := docs[t := doc + Changes(t.kind, now)];
        AfterSoft(t.kind, doc);
      }
    }

    /** Reinserts a document, or sets its fields back. */
    method Raise(r: Removal)
      requires r.hard || r.target in docs
      modifies this
      ensures View() == PutBack(old(View()), r)
    {
      if r.hard {
        docs := docs[r.target := r.before];
        AfterHard(r.target.kind, r.before, 1);
      } else {
        var doc := docs[r.target];
        docs := docs[r.target := doc + r.before];
        if r.target.kind == Event && Read(r.before, "status") == Text("published") {
          reminders := reminders + [r.target.id];
        }
        AfterSoft(r.target.kind, doc);
      }
    }

    /** Takes a target down, or does nothing where it is missing, already down, or named by no valid id. */
    method Remove(kind: Kind, targetId: Option<Id>, input: Input) returns (removal: Option<nat>, owner: Option<Id>)
      modifies this
      ensures targetId.None? ==> removal == None && owner == None && View() == old(View())
      ensures targetId.Some? ==>
        var t := Target(kind, targetId.value);
        && View() == Removed(old(View()), t, input)
        && removal == (if CanRemove(old(View()), t) then Some(|old(removals)|) else None)
        && owner == (if t in old(docs) then OwnerOf(kind, old(docs)[t]) else None)
    {
      if targetId.None? {
        return None, None;
      }
      var t := Target(kind, targetId.value);
      if t !in docs {
        return None, None;
      }
      var doc := docs[t];
      owner := OwnerOf(kind, doc);
      if IsDown(kind, doc) {
        return None, owner;
      }
      var before := Lower(t);
      removal := Some(|removals|);
      Record(t, before, owner, input);
    }

    method Record(t: Target, before: Doc, owner: Option<Id>, input: Input)
      modifies this
      ensures View() == Recorded(old(View()), t, before, owner, input)
    {
      var hard := IsHard(t.kind);
      removals := removals + [Removal(t, hard, before, owner, input.reason, input.report, input.actor, None)];
      if input.report.None? {
        audit := audit + [AuditRow(input.actor, "content.remove", t,
                                   if hard then map["exists" := Flag(true)] else before,
                                   if hard then map["exists" := Flag(false)] else ShownAfter(t.kind, now))];
      }
      if owner.Some? {
        notices := notices + [(owner.value, t)];
      }
    }

    /** Puts a removal back, or says why it cannot be. */
    method Restore(removal: nat, actor: Id) returns (result: Result<Removal>)
      modifies this
      ensures View() == Restored(old(View()), removal, actor)
      ensures match RestoreError(old(View()), removal)
              case Some(error) => result == Err(error)
              case None => result == Ok(removals[removal]) && removals[removal].restoredBy == Some(actor)
    {
      if removal >= |removals| {
        return Err(NotFound);
      }
      var r := removals[removal];
      if r.restoredBy.Some? {
        return Err(AlreadyRestored);
      }
      if r.hard == (r.target in docs) {
        return Err(NotRestorable);
      }
      Raise(r);
      removals := removals[removal := r.(restoredBy := Some(actor))];
      audit := audit + [AuditRow(actor, "content.restore", r.target,
                                 if r.hard then map["exists" := Flag(false)] else ShownAfter(r.target.kind, now),
                                 if r.hard then map["exists" := Flag(true)] else r.before)];
      result := Ok(removals[removal]);
    }
  }
}
