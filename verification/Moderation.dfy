/**
 The report queue: people and automatic checks report content or people; a moderator claims a
 report, leaves the content up or takes it down, and may later put it back. Takedowns go through
 the takedown service; removing a person suspends them.
 */
module Moderation {
  import opened Wrappers
  import T = Takedown

  type Id = T.Id

  datatype TargetType = Person | Content(kind: T.Kind)

  /** A reported id is whatever the reporter sent. */
  datatype TargetId = Valid(id: Id) | Malformed(text: string)

  datatype Source = ByUser | ByCheck

  datatype Status = Open | Reviewing | Resolved | Dismissed {
    predicate Handled() {
      Resolved? || Dismissed?
    }
  }

  datatype Action = Approve | Remove

  datatype Report = Report(
    source: Source, targetType: TargetType, targetId: TargetId, reporter: Option<Id>,
    reason: string, detail: Option<string>, severity: int,
    status: Status, resolution: Option<string>, handledBy: Option<Id>, handledAt: Option<int>,
    assignedTo: Option<Id>, assignedAt: Option<int>)

  /** An audit row of the queue's own, `moderation.approve`, `moderation.remove` or `moderation.restore`. */
  datatype Row = Acted(report: nat, action: Action, actor: Id) | PutBack(report: nat, actor: Id)

  datatype UserStatus = Active | Suspended

  /** A report is named by its place in `reports`. */
  datatype State = State(reports: seq<Report>, users: map<Id, UserStatus>, takedown: T.State, audit: seq<Row>)

  datatype Error = ReportNotFound | ReportClaimed | AlreadyHandled | NotRestorable | UserNotFound

  datatype Result<T> = Ok(value: T) | Err(error: Error)

  /** Higher is reviewed sooner. */
  function SeverityFor(targetType: TargetType, source: Source): int {
    1 + (if targetType.Person? then 2 else 0)
      + (if targetType.Content? && targetType.kind in {T.Message, T.Wish, T.MemoryWish, T.MemoryReply, T.ThankYou, T.Media} then 1 else 0)
      + (if source == ByCheck then 1 else 0)
  }

  /** The unique index: one report by one reporter of one thing. */
  predicate SameKey(a: Report, b: Report) {
    a.source == b.source && a.targetType == b.targetType && a.targetId == b.targetId && a.reporter == b.reporter
  }

  datatype Filing = Filing(source: Source, targetType: TargetType, targetId: TargetId, reporter: Option<Id>,
                           reason: string, detail: Option<string>)

  function NewReport(f: Filing): Report {
    Report(f.source, f.targetType, f.targetId, f.reporter, f.reason, f.detail, SeverityFor(f.targetType, f.source),
           Open, None, None, None, None, None)
  }

  /** The report already filed under a key, if there is one. */
  function Existing(reports: seq<Report>, report: Report): (i: Option<nat>)
    ensures i.Some? ==> i.value < |reports| && SameKey(reports[i.value], report)
    ensures i.None? ==> forall j :: 0 <= j < |reports| ==> !SameKey(reports[j], report)
  {
    if reports == [] then None
    else if SameKey(reports[|reports| - 1], report) then Some(|reports| - 1)
    else Existing(reports[..|reports| - 1], report)
  }

  function Filed(s: State, f: Filing): State {
    if Existing(s.reports, NewReport(f)).Some? then s else s.(reports := s.reports + [NewReport(f)])
  }

  function ClaimError(s: State, i: nat, actor: Id, takeOver: bool): Option<Error> {
    if i >= |s.reports| then Some(ReportNotFound)
    else if s.reports[i].assignedTo.Some? && s.reports[i].assignedTo.value != actor && !takeOver then Some(ReportClaimed)
    else None
  }

  function Claimed(s: State, i: nat, actor: Id, takeOver: bool): State {
    if ClaimError(s, i, actor, takeOver).Some? then s
    else s.(reports := s.reports[i := s.reports[i].(assignedTo := Some(actor), assignedAt := Some(s.takedown.now))])
  }

  function LetGo(s: State, i: nat, actor: Id): State {
    if ClaimError(s, i, actor, false).Some? then s
    else s.(reports := s.reports[i := s.reports[i].(assignedTo := None, assignedAt := None)])
  }

  function ActError(s: State, i: nat, action: Action): Option<Error> {
    if i >= |s.reports| then Some(ReportNotFound)
    else if s.reports[i].status.Handled() then Some(AlreadyHandled)
    else if action == Remove && s.reports[i].targetType.Person? && !KnownUser(s, s.reports[i].targetId) then Some(UserNotFound)
    else None
  }

  predicate KnownUser(s: State, id: TargetId) {
    id.Valid? && id.id in s.users
  }

  /** A removal driven by a report, or the suspension of a person. */
  function TargetRemoved(s: State, i: nat, actor: Id, reason: Option<string>): State
    requires i < |s.reports|
  {
    var r := s.reports[i];
    if r.targetId.Malformed? then s
    else match r.targetType
      case Person => s.(users := s.users[r.targetId.id := Suspended])
      case Content(kind) => s.(takedown := T.Removed(s.takedown, T.Target(kind, r.targetId.id), T.Input(actor, reason, Some(i))))
  }

  function ResolutionOf(action: Action, reason: Option<string>): string {
    if reason.Some? then reason.value
    else if action == Approve then "Report rejected — content left up" else "Content removed"
  }

  function Actioned(s: State, i: nat, action: Action, actor: Id, reason: Option<string>): State {
    if ActError(s, i, action).Some? then s
    else
      var after := if action == Remove then TargetRemoved(s, i, actor, reason) else s;
      var status := if action == Remove then Resolved else Dismissed;
      after.(reports := s.reports[i := s.reports[i].(status := status, resolution := Some(ResolutionOf(action, reason)),
                                                     handledBy := Some(actor), handledAt := Some(s.takedown.now))],
             audit := s.audit + [Acted(i, action, actor)])
  }

  /** The removal in force that a restore would undo. */
  function InForce(s: State, r: Report): Option<nat> {
    if r.targetType.Content? && r.targetId.Valid? then T.ActiveFor(s.takedown.removals, T.Target(r.targetType.kind, r.targetId.id))
    else None
  }

  function RestoreError(s: State, i: nat): Option<Error> {
    if i >= |s.reports| then Some(ReportNotFound)
    else
      var r := s.reports[i];
      if r.status != Resolved then Some(NotRestorable)
      else if r.targetType.Person? then if KnownUser(s, r.targetId) then None else Some(UserNotFound)
      else if InForce(s, r).None? || T.RestoreError(s.takedown, InForce(s, r).value).Some? then Some(NotRestorable)
      else None
  }

  function TargetRestored(s: State, r: Report, actor: Id): State
    requires if r.targetType.Person? then KnownUser(s, r.targetId) else InForce(s, r).Some?
  {
    match r.targetType
    case Person => s.(users := s.users[r.targetId.id := Active])
    case Content(_) => s.(takedown := T.Restored(s.takedown, InForce(s, r).value, actor))
  }

  function Restored(s: State, i: nat, actor: Id, reason: string): State {
    if RestoreError(s, i).Some? then s
    else
      TargetRestored(s, s.reports[i], actor).(
        reports := s.reports[i := s.reports[i].(status := Dismissed, resolution := Some("Restored: " + reason),
                                                handledBy := Some(actor), handledAt := Some(s.takedown.now))],
        audit := s.audit + [PutBack(i, actor)])
  }

  /** The ids without their repeats, in the order they are first named. */
  function Distinct(ids: seq<nat>): seq<nat> {
    if ids == [] then []
    else
      var init, last := Distinct(ids[..|ids| - 1]), ids[|ids| - 1];
      if last in init then init else init + [last]
  }

  /** The same action on each of the ids in turn. */
  function ActedOnAll(s: State, ids: seq<nat>, action: Action, actor: Id, reason: Option<string>): State {
    if ids == [] then s
    else Actioned(ActedOnAll(s, ids[..|ids| - 1], action, actor, reason), ids[|ids| - 1], action, actor, reason)
  }

  // ---------------------------------------------------------------------------
  // What every run keeps
  // ---------------------------------------------------------------------------

  datatype Step =
    | File(filing: Filing)
    | Claim(report: nat, actor: Id, takeOver: bool)
    | Release(report: nat, actor: Id)
    | Act(report: nat, action: Action, actor: Id, reason: Option<string>)
    | BulkAct(reports: seq<nat>, action: Action, actor: Id, reason: Option<string>)
    | Restore(report: nat, actor: Id, why: string)
    | Elsewhere(step: T.Step)     // the content pages, and time

  function Next(s: State, step: Step): State {
    match step
    case File(f) => Filed(s, f)
    case Claim(i, actor, takeOver) => Claimed(s, i, actor, takeOver)
    case Release(i, actor) => LetGo(s, i, actor)
    case Act(i, action, actor, reason) => Actioned(s, i, action, actor, reason)
    case BulkAct(ids, action, actor, reason) => ActedOnAll(s, Distinct(ids), action, actor, reason)
    case Restore(i, actor, why) => Restored(s, i, actor, why)
    case Elsewhere(t) => s.(takedown := T.Next(s.takedown, t))
  }

  function Run(s: State, steps: seq<Step>): State
    decreases |steps|
  {
    if steps == [] then s else Run(Next(s, steps[0]), steps[1..])
  }

  function ActsOn(audit: seq<Row>, i: nat): nat {
    if audit == [] then 0
    else ActsOn(audit[..|audit| - 1], i) + if audit[|audit| - 1].Acted? && audit[|audit| - 1].report == i then 1 else 0
  }

  function RestoresOf(audit: seq<Row>, i: nat): nat {
    if audit == [] then 0
    else RestoresOf(audit[..|audit| - 1], i) + if audit[|audit| - 1].PutBack? && audit[|audit| - 1].report == i then 1 else 0
  }

  /** The audit trail tells a report's status: one action when it is handled, and one restore at most after that. */
  ghost predicate Told(s: State, i: nat) {
    if i >= |s.reports| then ActsOn(s.audit, i) == 0 && RestoresOf(s.audit, i) == 0
    else
      && ActsOn(s.audit, i) == (if s.reports[i].status.Handled() then 1 else 0)
      && RestoresOf(s.audit, i) <= (if s.reports[i].status == Dismissed then 1 else 0)
  }

  ghost predicate Inv(s: State) {
    && (forall i, j :: 0 <= i < j < |s.reports| ==> !SameKey(s.reports[i], s.reports[j]))
    && (forall i :: Told(s, i))
  }

  /** The moves a report's status may make. */
  predicate MayMove(from: Status, to: Status) {
    from == to || (!from.Handled() && to.Handled()) || (from == Resolved && to == Dismissed)
  }

  /** From one state to a later one no report is lost, changes what it is about, or moves otherwise than it may. */
  ghost predicate Moves(s: State, s': State) {
    && |s.reports| <= |s'.reports|
    && forall i :: 0 <= i < |s.reports| ==> SameKey(s.reports[i], s'.reports[i]) && MayMove(s.reports[i].status, s'.reports[i].status)
  }

  lemma FileKeeps(s: State, f: Filing)
    requires Inv(s)
    ensures Inv(Filed(s, f)) && Moves(s, Filed(s, f))
  {
    var s' := Filed(s, f);
    forall i ensures Told(s', i) {
      assert Told(s, i);
    }
  }

  lemma ReassignKeeps(s: State, i: nat, r: Report)
    requires Inv(s) && i < |s.reports| && SameKey(s.reports[i], r) && r.status == s.reports[i].status
    ensures Inv(s.(reports := s.reports[i := r])) && Moves(s, s.(reports := s.reports[i := r]))
  {
    var s' := s.(reports := s.reports[i := r]);
    forall j ensures Told(s', j) {
      assert Told(s, j);
    }
  }

  lemma ActKeeps(s: State, i: nat, action: Action, actor: Id, reason: Option<string>)
    requires Inv(s)
    ensures Inv(Actioned(s, i, action, actor, reason)) && Moves(s, Actioned(s, i, action, actor, reason))
  {
    var s' := Actioned(s, i, action, actor, reason);
    if ActError(s, i, action).None? {
      assert s'.audit[..|s'.audit| - 1] == s.audit;
      forall j ensures Told(s', j) {
        assert Told(s, j);
      }
    }
  }

  lemma RestoreKeeps(s: State, i: nat, actor: Id, why: string)
    requires Inv(s)
    ensures Inv(Restored(s, i, actor, why)) && Moves(s, Restored(s, i, actor, why))
  {
    var s' := Restored(s, i, actor, why);
    if RestoreError(s, i).None? {
      assert s'.audit[..|s'.audit| - 1] == s.audit;
      forall j ensures Told(s', j) {
        assert Told(s, j);
      }
    }
  }

  lemma {:induction false} BulkKeeps(s: State, ids: seq<nat>, action: Action, actor: Id, reason: Option<string>)
    requires Inv(s)
    ensures Inv(ActedOnAll(s, ids, action, actor, reason)) && Moves(s, ActedOnAll(s, ids, action, actor, reason))
  {
    if ids != [] {
      var before := ActedOnAll(s, ids[..|ids| - 1], action, actor, reason);
      BulkKeeps(s, ids[..|ids| - 1], action, actor, reason);
      ActKeeps(before, ids[|ids| - 1], action, actor, reason);
    }
  }

  lemma StepKeeps(s: State, step: Step)
    requires Inv(s)
    ensures Inv(Next(s, step)) && Moves(s, Next(s, step))
  {
    match step {
      case File(f) => FileKeeps(s, f);
      case Claim(i, actor, takeOver) =>
        if ClaimError(s, i, actor, takeOver).None? {
          ReassignKeeps(s, i, Claimed(s, i, actor, takeOver).reports[i]);
        }
      case Release(i, actor) =>
        if ClaimError(s, i, actor, false).None? {
          ReassignKeeps(s, i, LetGo(s, i, actor).reports[i]);
        }
      case Act(i, action, actor, reason) => ActKeeps(s, i, action, actor, reason);
      case BulkAct(ids, action, actor, reason) => BulkKeeps(s, Distinct(ids), action, actor, reason);
      case Restore(i, actor, why) => RestoreKeeps(s, i, actor, why);
      case Elsewhere(t) =>
        var s' := Next(s, step);
        forall i ensures Told(s', i) {
          assert Told(s, i);
        }
    }
  }

  /** A fresh queue, or one of reports nobody has acted on. */
  predicate IsStart(s: State) {
    && s.audit == []
    && (forall i :: 0 <= i < |s.reports| ==> !s.reports[i].status.Handled())
    && (forall i, j :: 0 <= i < j < |s.reports| ==> !SameKey(s.reports[i], s.reports[j]))
  }

  lemma {:induction false} RunKeeps(s: State, steps: seq<Step>)
    requires Inv(s)
    ensures Inv(Run(s, steps)) && Moves(s, Run(s, steps))
    decreases |steps|
  {
    if steps != [] {
      StepKeeps(s, steps[0]);
      RunKeeps(Next(s, steps[0]), steps[1..]);
    }
  }

  /** In every run a report is acted on at most once and put back at most once, and no two reports share a key. */
  lemma ActedOnceRestoredOnce(s: State, steps: seq<Step>, i: nat, j: nat)
    requires IsStart(s)
    ensures var end := Run(s, steps);
            && ActsOn(end.audit, i) <= 1 && RestoresOf(end.audit, i) <= ActsOn(end.audit, i)
            && (i < |end.reports| && j < |end.reports| && SameKey(end.reports[i], end.reports[j]) ==> i == j)
  {
    assert forall k :: Told(s, k);
    RunKeeps(s, steps);
    assert Told(Run(s, steps), i);
  }

  /** From any state of a run to any later one, each report's status has only moved the way it may. */
  lemma StatusOnlyMovesOn(s: State, earlier: seq<Step>, later: seq<Step>)
    requires IsStart(s)
    ensures Moves(Run(s, earlier), Run(Run(s, earlier), later))
  {
    assert forall k :: Told(s, k);
    RunKeeps(s, earlier);
    RunKeeps(Run(s, earlier), later);
  }

  /** An action that succeeds adds one row, its own, and handles its report; one that fails changes nothing. */
  lemma ActAddsOneRow(s: State, i: nat, action: Action, actor: Id, reason: Option<string>)
    ensures var s' := Actioned(s, i, action, actor, reason);
            if ActError(s, i, action).Some? then s' == s
            else
              && s'.audit == s.audit + [Acted(i, action, actor)]
              && s'.reports[i].status == (if action == Remove then Resolved else Dismissed)
              && s'.reports[i].handledBy == Some(actor) && s'.reports[i].handledAt == Some(s.takedown.now)
              && s'.reports[i].resolution == Some(if reason.Some? then reason.value
                                                  else if action == Remove then "Content removed" else "Report rejected — content left up")
              && s'.reports[i].assignedTo == s.reports[i].assignedTo && s'.reports[i].severity == s.reports[i].severity
              && forall j :: 0 <= j < |s.reports| && j != i ==> s'.reports[j] == s.reports[j]
  {
  }

  /** So does a restore, which dismisses its report and says why. */
  lemma RestoreAddsOneRow(s: State, i: nat, actor: Id, why: string)
    ensures var s' := Restored(s, i, actor, why);
            if RestoreError(s, i).Some? then s' == s
            else
              && s'.audit == s.audit + [PutBack(i, actor)] && s'.reports[i].status == Dismissed
              && s'.reports[i].handledBy == Some(actor) && s'.reports[i].handledAt == Some(s.takedown.now)
              && s'.reports[i].resolution == Some("Restored: " + why)
              && forall j :: 0 <= j < |s.reports| && j != i ==> s'.reports[j] == s.reports[j]
  {
  }

  /** A report is filed once: it is there afterwards, and only one not there before is added, open, with nobody's hold on it. */
  lemma FiledOnce(s: State, f: Filing)
    ensures var s', r := Filed(s, f), NewReport(f);
            && (exists i :: 0 <= i < |s'.reports| && SameKey(s'.reports[i], r))
            && s'.reports == (if exists i :: 0 <= i < |s.reports| && SameKey(s.reports[i], r) then s.reports else s.reports + [r])
            && r.status == Open && r.assignedTo.None? && r.handledBy.None? && r.severity == SeverityFor(f.targetType, f.source)
  {
    var s', r := Filed(s, f), NewReport(f);
    var filed := Existing(s.reports, r);
    var i := if filed.Some? then filed.value else |s.reports|;
    assert SameKey(s'.reports[i], r);
  }

  /** A report not handled yet can be, whoever holds it, but that a person who is not known cannot be removed. */
  lemma OpenCanBeHandled(s: State, i: nat, action: Action)
    requires i < |s.reports|
    ensures ActError(s, i, action).None? <==>
              !s.reports[i].status.Handled() && (action == Remove && s.reports[i].targetType.Person? ==> KnownUser(s, s.reports[i].targetId))
  {
  }

  /** Messages, wishes, notes and files are sent to people; the rest they browse to. */
  predicate IsBrowsed(kind: T.Kind) {
    kind.Reel? || kind.Wishlist? || kind.Item? || kind.Event? || kind.Profile? || kind.GroupGift?
  }

  /** A check outranks a person who reports the same; a person reported outranks any content, and what is sent to people what they browse to. */
  lemma SeverityRanks(a: TargetType, b: TargetType, source: Source)
    ensures SeverityFor(a, ByCheck) == SeverityFor(a, ByUser) + 1
    ensures SeverityFor(a, source) > SeverityFor(b, source) <==>
              (a.Person? && b.Content?) || (a.Content? && b.Content? && !IsBrowsed(a.kind) && IsBrowsed(b.kind))
  {
  }

  /** What ends a moderator's hold on a report: someone else takes it over, or its holder lets go. */
  predicate EndsHold(step: Step, i: nat, holder: Id) {
    match step
    case Claim(j, actor, takeOver) => j == i && actor != holder && takeOver
    case Release(j, actor) => j == i && actor == holder
    case _ => false
  }

  lemma HoldStays(s: State, step: Step, i: nat, holder: Id)
    requires i < |s.reports| && s.reports[i].assignedTo == Some(holder) && !EndsHold(step, i, holder)
    ensures i < |Next(s, step).reports| && Next(s, step).reports[i].assignedTo == Some(holder)
  {
    match step {
      case BulkAct(ids, action, actor, reason) => BulkKeepsHolds(s, Distinct(ids), action, actor, reason, i);
      case _ =>
    }
  }

  lemma {:induction false} BulkKeepsHolds(s: State, ids: seq<nat>, action: Action, actor: Id, reason: Option<string>, i: nat)
    requires i < |s.reports|
    ensures var s' := ActedOnAll(s, ids, action, actor, reason);
            i < |s'.reports| && s'.reports[i].assignedTo == s.reports[i].assignedTo
  {
    if ids != [] {
      BulkKeepsHolds(s, ids[..|ids| - 1], action, actor, reason, i);
    }
  }

  /** A report claimed stays its claimer's, and can neither be claimed nor let go by another, until one of those two happens. */
  lemma {:induction false} ClaimHolds(s: State, steps: seq<Step>, i: nat, holder: Id, other: Id)
    requires i < |s.reports| && s.reports[i].assignedTo == Some(holder) && other != holder
    requires forall k :: 0 <= k < |steps| ==> !EndsHold(steps[k], i, holder)
    ensures var end := Run(s, steps);
            && i < |end.reports| && end.reports[i].assignedTo == Some(holder)
            && Claimed(end, i, other, false) == end && LetGo(end, i, other) == end
            && ClaimError(end, i, other, false) == Some(ReportClaimed) && ClaimError(end, i, holder, false).None?
    decreases |steps|
  {
    if steps != [] {
      HoldStays(s, steps[0], i, holder);
      ClaimHolds(Next(s, steps[0]), steps[1..], i, holder, other);
    }
  }

  /** Claiming one that is free, one's own, or with a takeover makes it one's own; letting go of one's own makes it free. */
  lemma ClaimTakes(s: State, i: nat, actor: Id, takeOver: bool)
    requires i < |s.reports|
    ensures ClaimError(s, i, actor, takeOver).None? <==> takeOver || s.reports[i].assignedTo == None || s.reports[i].assignedTo == Some(actor)
    ensures ClaimError(s, i, actor, takeOver).None? ==>
              var claimed := Claimed(s, i, actor, takeOver);
              && |claimed.reports| == |s.reports| && claimed.reports[i].assignedTo == Some(actor)
              && LetGo(claimed, i, actor).reports == s.reports[i := s.reports[i].(assignedTo := None, assignedAt := None)]
  {
  }

  // ---------------------------------------------------------------------------
  // What an action does to its target
  // ---------------------------------------------------------------------------

  function TargetOf(r: Report): T.Target
    requires r.targetType.Content? && r.targetId.Valid?
  {
    T.Target(r.targetType.kind, r.targetId.id)
  }

  /** A person is suspended; content is gone, or already was. */
  predicate OutOfSight(s: State, r: Report) {
    r.targetId.Valid? ==>
      match r.targetType
      case Person => r.targetId.id in s.users && s.users[r.targetId.id] == Suspended
      case Content(_) => !T.CanRemove(s.takedown, TargetOf(r))
  }

  /** Acting with Remove suspends the person, and nobody else, or takes the content down by a removal that names the report. */
  lemma RemovingTakesDown(s: State, i: nat, actor: Id, reason: Option<string>)
    requires ActError(s, i, Remove).None?
    ensures var r, s' := s.reports[i], Actioned(s, i, Remove, actor, reason);
            && OutOfSight(s', r)
            && (r.targetType.Person? ==>
                  s'.takedown == s.takedown && forall u :: u in s'.users ==> u in s.users && (u != r.targetId.id ==> s'.users[u] == s.users[u]))
            && (r.targetType.Content? ==> s'.users == s.users)
            && (r.targetType.Content? && r.targetId.Valid? && T.CanRemove(s.takedown, TargetOf(r)) ==>
                  && T.Down(s'.takedown, TargetOf(r)) && InForce(s', r) == Some(|s.takedown.removals|)
                  && var removal := s'.takedown.removals[|s.takedown.removals|];
                     removal.report == Some(i) && removal.removedBy == actor && removal.reason == reason)
  {
    var r := s.reports[i];
    if r.targetType.Content? && r.targetId.Valid? {
      T.RemovedIsDown(s.takedown, TargetOf(r), T.Input(actor, reason, Some(i)));
    }
  }

  /** Approving leaves every person and all content alone. */
  lemma ApprovingLeavesUp(s: State, i: nat, actor: Id, reason: Option<string>)
    ensures var s' := Actioned(s, i, Approve, actor, reason); s'.takedown == s.takedown && s'.users == s.users
  {
  }

  /** Restoring a person makes them active again, and nobody else. */
  lemma RestoringReactivates(s: State, i: nat, actor: Id, why: string)
    requires RestoreError(s, i).None? && s.reports[i].targetType.Person?
    ensures var s', id := Restored(s, i, actor, why), s.reports[i].targetId.id;
            && s'.takedown == s.takedown && s'.users.Keys == s.users.Keys
            && id in s'.users && s'.users[id] == Active && forall u :: u in s.users && u != id ==> s'.users[u] == s.users[u]
  {
  }

  /** A suspension made by a report can be lifted by it as long as the person is known. */
  lemma PersonCanBeRestored(s: State, i: nat)
    requires i < |s.reports| && s.reports[i].targetType.Person?
    ensures RestoreError(s, i).None? <==> s.reports[i].status == Resolved && KnownUser(s, s.reports[i].targetId)
  {
  }

  lemma OutOfSightStays(s: State, i: nat, actor: Id, reason: Option<string>, r: Report)
    requires OutOfSight(s, r)
    ensures OutOfSight(Actioned(s, i, Remove, actor, reason), r)
  {
    if ActError(s, i, Remove).None? && r.targetId.Valid? && r.targetType.Content?
       && s.reports[i].targetType.Content? && s.reports[i].targetId.Valid? {
      T.RemovingBringsNothingUp(s.takedown, TargetOf(s.reports[i]), T.Input(actor, reason, Some(i)), TargetOf(r));
    }
  }

  // ---------------------------------------------------------------------------
  // Bulk actions
  // ---------------------------------------------------------------------------

  lemma {:induction false} DistinctIsASet(ids: seq<nat>)
    ensures forall x :: x in Distinct(ids) <==> x in ids
    ensures forall i, j :: 0 <= i < j < |Distinct(ids)| ==> Distinct(ids)[i] != Distinct(ids)[j]
  {
    if ids != [] {
      DistinctIsASet(ids[..|ids| - 1]);
      assert ids == ids[..|ids| - 1] + [ids[|ids| - 1]];
    }
  }

  /** In the order first named: naming more ids only ever adds at the end. */
  lemma {:induction false} DistinctInOrder(ids: seq<nat>, n: nat)
    requires n <= |ids|
    ensures Distinct(ids[..n]) <= Distinct(ids)
  {
    if n < |ids| {
      DistinctInOrder(ids[..|ids| - 1], n);
      assert ids[..|ids| - 1][..n] == ids[..n];
    } else {
      assert ids[..n] == ids;
    }
  }

  /** Acting on other reports leaves one as ready to be acted on as it was. */
  lemma {:induction false} OthersDoNotMatter(s: State, ids: seq<nat>, action: Action, actor: Id, reason: Option<string>, i: nat)
    requires i !in ids
    ensures ActError(ActedOnAll(s, ids, action, actor, reason), i, action) == ActError(s, i, action)
    ensures |ActedOnAll(s, ids, action, actor, reason).reports| == |s.reports|
    ensures i < |s.reports| ==> ActedOnAll(s, ids, action, actor, reason).reports[i] == s.reports[i]
    ensures s.users.Keys == ActedOnAll(s, ids, action, actor, reason).users.Keys
  {
    if ids != [] {
      OthersDoNotMatter(s, ids[..|ids| - 1], action, actor, reason, i);
      ActKeepsUsers(ActedOnAll(s, ids[..|ids| - 1], action, actor, reason), ids[|ids| - 1], action, actor, reason);
    }
  }

  lemma ActKeepsUsers(s: State, i: nat, action: Action, actor: Id, reason: Option<string>)
    ensures Actioned(s, i, action, actor, reason).users.Keys == s.users.Keys
    ensures |Actioned(s, i, action, actor, reason).reports| == |s.reports|
  {
  }

  /** Everything a bulk Remove could act on is out of sight when it is through. */
  lemma {:induction false} BulkRemovesAll(s: State, ids: seq<nat>, actor: Id, reason: Option<string>, i: nat)
    requires i in ids && ActError(s, i, Remove).None?
    ensures OutOfSight(ActedOnAll(s, ids, Remove, actor, reason), s.reports[i])
  {
    var init, last := ids[..|ids| - 1], ids[|ids| - 1];
    var before := ActedOnAll(s, init, Remove, actor, reason);
    if i in init {
      BulkRemovesAll(s, init, actor, reason, i);
      OutOfSightStays(before, last, actor, reason, s.reports[i]);
    } else {
      OthersDoNotMatter(s, init, Remove, actor, reason, i);
      RemovingTakesDown(before, i, actor, reason);
    }
  }

  /** The ids an action can succeed on, as things stand before any of it. */
  function Doable(s: State, ids: seq<nat>, action: Action): seq<nat> {
    if ids == [] then []
    else Doable(s, ids[..|ids| - 1], action) + if ActError(s, ids[|ids| - 1], action).None? then [ids[|ids| - 1]] else []
  }

  /** The others, with what is wrong with each. */
  function Undoable(s: State, ids: seq<nat>, action: Action): seq<(nat, Error)> {
    if ids == [] then []
    else
      var last := ids[|ids| - 1];
      Undoable(s, ids[..|ids| - 1], action) + if ActError(s, last, action).Some? then [(last, ActError(s, last, action).value)] else []
  }

  /** Every distinct id ends up on one side or the other, and on one only. */
  lemma {:induction false} BulkSplitsExactly(s: State, ids: seq<nat>, action: Action)
    ensures |Doable(s, ids, action)| + |Undoable(s, ids, action)| == |ids|
    ensures forall x :: x in Doable(s, ids, action) <==> x in ids && ActError(s, x, action).None?
    ensures forall x, e :: (x, e) in Undoable(s, ids, action) <==> x in ids && ActError(s, x, action) == Some(e)
  {
    if ids != [] {
      BulkSplitsExactly(s, ids[..|ids| - 1], action);
      assert ids == ids[..|ids| - 1] + [ids[|ids| - 1]];
    }
  }

  /** One more id of a bulk action, as the loop over them takes it. */
  lemma BulkStep(s: State, ids: seq<nat>, n: nat, action: Action, actor: Id, reason: Option<string>)
    requires n < |ids| && ids[n] !in ids[..n]
    ensures var before := ActedOnAll(s, ids[..n], action, actor, reason);
            && ActError(before, ids[n], action) == ActError(s, ids[n], action)
            && ActedOnAll(s, ids[..n + 1], action, actor, reason) == Actioned(before, ids[n], action, actor, reason)
    ensures var error := ActError(s, ids[n], action);
            && Doable(s, ids[..n + 1], action) == Doable(s, ids[..n], action) + (if error.None? then [ids[n]] else [])
            && Undoable(s, ids[..n + 1], action) == Undoable(s, ids[..n], action) + (if error.Some? then [(ids[n], error.value)] else [])
  {
    assert ids[..n + 1][..n] == ids[..n];
    OthersDoNotMatter(s, ids[..n], action, actor, reason, ids[n]);
  }

  // ---------------------------------------------------------------------------
  // The queue and the takedowns beneath it
  // ---------------------------------------------------------------------------

  /** A takedown target's document, as `Takedown.BaseAfter` keeps it, after a step of the queue. */
  function BaseAfter(base: Option<T.Doc>, s: State, t: T.Target, step: Step): Option<T.Doc> {
    if step.Elsewhere? then T.BaseAfter(base, s.takedown, t, step.step) else base
  }

  function BaseAfterAll(base: Option<T.Doc>, s: State, t: T.Target, steps: seq<Step>): Option<T.Doc>
    decreases |steps|
  {
    if steps == [] then base else BaseAfterAll(BaseAfter(base, s, t, steps[0]), Next(s, steps[0]), t, steps[1..])
  }

  predicate Spoils(s: State, t: T.Target, step: Step) {
    step.Elsewhere? && T.Spoils(s.takedown, t, step.step)
  }

  /** No compile lands on the target, a reel, while a removal of it is in force. */
  ghost predicate IsSpared(s: State, t: T.Target, steps: seq<Step>)
    decreases |steps|
  {
    steps == [] || (!Spoils(s, t, steps[0]) && IsSpared(Next(s, steps[0]), t, steps[1..]))
  }

  lemma {:induction false} OnlyReelsAreSpoilt(base: Option<T.Doc>, s: State, t: T.Target, steps: seq<Step>)
    requires t.kind != T.Reel
    ensures IsSpared(s, t, steps) && BaseAfterAll(base, s, t, steps) == base
    decreases |steps|
  {
    if steps != [] {
      OnlyReelsAreSpoilt(base, Next(s, steps[0]), t, steps[1..]);
    }
  }

  /** Whatever a moderator does keeps what the takedowns promise of each target: see `Takedown.Inv`. */
  lemma ActKeepsTakedowns(base: Option<T.Doc>, s: State, t: T.Target, i: nat, action: Action, actor: Id, reason: Option<string>)
    requires T.Inv(base, s.takedown, t)
    ensures T.Inv(base, Actioned(s, i, action, actor, reason).takedown, t)
  {
    if ActError(s, i, action).None? && action == Remove && s.reports[i].targetType.Content? && s.reports[i].targetId.Valid? {
      var removed, input := T.Target(s.reports[i].targetType.kind, s.reports[i].targetId.id), T.Input(actor, reason, Some(i));
      T.RemoveKeepsInv(base, s.takedown, removed, input, t);
    }
  }

  lemma {:induction false} BulkKeepsTakedowns(base: Option<T.Doc>, s: State, t: T.Target, ids: seq<nat>, action: Action, actor: Id, reason: Option<string>)
    requires T.Inv(base, s.takedown, t)
    ensures T.Inv(base, ActedOnAll(s, ids, action, actor, reason).takedown, t)
  {
    if ids != [] {
      BulkKeepsTakedowns(base, s, t, ids[..|ids| - 1], action, actor, reason);
      ActKeepsTakedowns(base, ActedOnAll(s, ids[..|ids| - 1], action, actor, reason), t, ids[|ids| - 1], action, actor, reason);
    }
  }

  lemma RestoreKeepsTakedowns(base: Option<T.Doc>, s: State, t: T.Target, i: nat, actor: Id, why: string)
    requires T.Inv(base, s.takedown, t)
    ensures T.Inv(base, Restored(s, i, actor, why).takedown, t)
  {
    if RestoreError(s, i).None? && s.reports[i].targetType.Content? {
      T.RestoreKeepsInv(base, s.takedown, InForce(s, s.reports[i]).value, actor, t);
    }
  }

  lemma QueueKeepsTakedowns(base: Option<T.Doc>, s: State, t: T.Target, step: Step)
    requires T.Inv(base, s.takedown, t) && !step.Elsewhere?
    ensures T.Inv(base, Next(s, step).takedown, t)
  {
    match step
    case Act(i, action, actor, reason) => ActKeepsTakedowns(base, s, t, i, action, actor, reason);
    case BulkAct(ids, action, actor, reason) => BulkKeepsTakedowns(base, s, t, Distinct(ids), action, actor, reason);
    case Restore(i, actor, why) => RestoreKeepsTakedowns(base, s, t, i, actor, why);
    case _ =>
  }

  lemma StepKeepsTakedowns(base: Option<T.Doc>, s: State, t: T.Target, step: Step)
    requires T.Inv(base, s.takedown, t) && !Spoils(s, t, step)
    ensures T.Inv(BaseAfter(base, s, t, step), Next(s, step).takedown, t)
  {
    if step.Elsewhere? {
      T.StepKeepsInv(base, s.takedown, t, step.step);
    } else {
      QueueKeepsTakedowns(base, s, t, step);
    }
  }

  lemma {:induction false} RunKeepsTakedowns(base: Option<T.Doc>, s: State, t: T.Target, steps: seq<Step>)
    requires T.Inv(base, s.takedown, t) && IsSpared(s, t, steps)
    ensures T.Inv(BaseAfterAll(base, s, t, steps), Run(s, steps).takedown, t)
    decreases |steps|
  {
    if steps != [] {
      StepKeepsTakedowns(base, s, t, steps[0]);
      RunKeepsTakedowns(BaseAfter(base, s, t, steps[0]), Next(s, steps[0]), t, steps[1..]);
    }
  }

  /** And each capsule's count stays its number of wishes. */
  lemma ActKeepsCounts(s: State, i: nat, action: Action, actor: Id, reason: Option<string>)
    requires T.CountsRight(s.takedown) && T.ModesRight(s.takedown)
    ensures var s' := Actioned(s, i, action, actor, reason); T.CountsRight(s'.takedown) && T.ModesRight(s'.takedown)
  {
    if ActError(s, i, action).None? && action == Remove && s.reports[i].targetType.Content? && s.reports[i].targetId.Valid? {
      var removed, input := T.Target(s.reports[i].targetType.kind, s.reports[i].targetId.id), T.Input(actor, reason, Some(i));
      T.StepKeepsCounts(s.takedown, T.DoRemove(removed, input));
    }
  }

  lemma {:induction false} BulkKeepsCounts(s: State, ids: seq<nat>, action: Action, actor: Id, reason: Option<string>)
    requires T.CountsRight(s.takedown) && T.ModesRight(s.takedown)
    ensures var s' := ActedOnAll(s, ids, action, actor, reason); T.CountsRight(s'.takedown) && T.ModesRight(s'.takedown)
  {
    if ids != [] {
      BulkKeepsCounts(s, ids[..|ids| - 1], action, actor, reason);
      ActKeepsCounts(ActedOnAll(s, ids[..|ids| - 1], action, actor, reason), ids[|ids| - 1], action, actor, reason);
    }
  }

  lemma StepKeepsCounts(s: State, step: Step)
    requires T.CountsRight(s.takedown) && T.ModesRight(s.takedown)
    ensures T.CountsRight(Next(s, step).takedown) && T.ModesRight(Next(s, step).takedown)
  {
    match step {
      case Act(i, action, actor, reason) => ActKeepsCounts(s, i, action, actor, reason);
      case BulkAct(ids, action, actor, reason) => BulkKeepsCounts(s, Distinct(ids), action, actor, reason);
      case Restore(i, actor, why) =>
        if RestoreError(s, i).None? && s.reports[i].targetType.Content? {
          T.StepKeepsCounts(s.takedown, T.DoRestore(InForce(s, s.reports[i]).value, actor));
        }
      case Elsewhere(t) => T.StepKeepsCounts(s.takedown, t);
      case _ =>
    }
  }

  lemma {:induction false} RunKeepsCounts(s: State, steps: seq<Step>)
    requires T.CountsRight(s.takedown) && T.ModesRight(s.takedown)
    ensures T.CountsRight(Run(s, steps).takedown) && T.ModesRight(Run(s, steps).takedown)
    decreases |steps|
  {
    if steps != [] {
      StepKeepsCounts(s, steps[0]);
      RunKeepsCounts(Next(s, steps[0]), steps[1..]);
    }
  }

  /**
   A report whose content was taken down can be restored exactly when a removal of that content is still in force,
   whoever made it; and then the content reads, field by field, as it did at the start, or, of a reel, as last compiled.
   */
  lemma RestoringGivesContentBack(s: State, steps: seq<Step>, i: nat, t: T.Target, actor: Id, why: string, field: string)
    requires T.IsStart(s.takedown) && IsSpared(s, t, steps)
    requires var end := Run(s, steps);
             && i < |end.reports| && end.reports[i].status == Resolved
             && end.reports[i].targetType == Content(t.kind) && end.reports[i].targetId == Valid(t.id)
    ensures var end, base := Run(s, steps), BaseAfterAll(T.BaseOf(s.takedown, t), s, t, steps);
            var after := Restored(end, i, actor, why);
            && (t.kind != T.Reel ==> base == T.BaseOf(s.takedown, t))
            && (RestoreError(end, i).None? <==> T.ActiveFor(end.takedown.removals, t).Some?)
            && (RestoreError(end, i).None? ==>
                  && t in after.takedown.docs && base.Some?
                  && T.ReadsAs(t, field, T.Read(after.takedown.docs[t], field), T.Read(base.value, field)))
  {
    var end, base := Run(s, steps), BaseAfterAll(T.BaseOf(s.takedown, t), s, t, steps);
    T.StartHolds(s.takedown, t);
    RunKeepsTakedowns(T.BaseOf(s.takedown, t), s, t, steps);
    if t.kind != T.Reel {
      OnlyReelsAreSpoilt(T.BaseOf(s.takedown, t), s, t, steps);
    }
    var active := T.ActiveFor(end.takedown.removals, t);
    if active.Some? {
      assert T.IsActive(end.takedown, active.value, t);
      T.PutBackIsAsAtStart(base, end.takedown, active.value);
    }
  }

  // ---------------------------------------------------------------------------
  // What a moderator is shown of a target
  // ---------------------------------------------------------------------------

  function Str(v: T.Value): T.Value {
    if v.Text? then v else T.Null
  }

  /** The state of a target's document, as the preview of it reads each kind's own fields. */
  function Described(docs: map<T.Target, T.Doc>, t: T.Target): T.Value {
    if t !in docs then T.Null
    else
      var doc := docs[t];
      match t.kind
      case Message => if T.Truthy(T.Read(doc, "deletedAt")) then T.Text("deleted") else T.Null
      case Wish => T.Read(doc, "moderationStatus")
      case Reel => if T.Truthy(T.Read(doc, "reelMediaUrl")) then T.Read(doc, "status") else T.Text("media removed")
      case Wishlist => if T.Truthy(T.Read(doc, "archivedAt")) then T.Text("archived") else T.Null
      case Event => T.Read(doc, "status")
      case ThankYou => Str(T.Read(doc, "status"))
      case GroupGift => Str(T.Read(doc, "status"))
      case Media => if T.Read(doc, "status") == T.Text("ready") then T.Null else Str(T.Read(doc, "status"))
      case _ => T.Null
  }

  function StateShown(s: T.State, t: T.Target): T.Value {
    var described := Described(s.docs, t);
    if T.ActiveFor(s.removals, t).Some? && !T.Truthy(described) then T.Text("removed") else described
  }

  /** The word for a thing that is down. */
  function DownWord(kind: T.Kind): string {
    match kind
    case Message => "deleted"
    case Wish => "rejected"
    case Reel => "media removed"
    case Wishlist => "archived"
    case Event => "cancelled"
    case Media => "orphaned"
    case _ => "removed"
  }

  lemma HeldIsDescribed(base: Option<T.Doc>, s: T.State, r: T.Removal)
    requires T.HeldDown(base, s, r) && r.target.kind != T.Item
    ensures var kind := r.target.kind;
            Described(s.docs, r.target) ==
              if T.IsHard(kind) || kind == T.Profile then T.Null
              else if kind == T.GroupGift then Str(T.Read(s.docs[r.target], "status"))
              else T.Text(DownWord(kind))
  {
  }

  lemma HeldIsShown(base: Option<T.Doc>, s: T.State, r: T.Removal)
    requires T.HeldDown(base, s, r) && T.ActiveFor(s.removals, r.target).Some? && r.target.kind != T.Item
    ensures var t := r.target;
            if t.kind == T.GroupGift && t in s.docs && T.Truthy(Str(T.Read(s.docs[t], "status")))
            then StateShown(s, t) == T.Read(s.docs[t], "status")
            else StateShown(s, t) == T.Text(DownWord(t.kind))
  {
    HeldIsDescribed(base, s, r);
  }

  /**
   Over any run of the queue, a target with a removal in force is shown as down, if no compile spoilt it; but a group gift
   that has a status is shown with that status.
   */
  lemma RemovalIsShown(s: State, steps: seq<Step>, t: T.Target)
    requires T.IsStart(s.takedown) && IsSpared(s, t, steps)
    requires T.ActiveFor(Run(s, steps).takedown.removals, t).Some? && t.kind != T.Item
    ensures var end := Run(s, steps).takedown;
            if t.kind == T.GroupGift && t in end.docs && T.Truthy(Str(T.Read(end.docs[t], "status")))
            then StateShown(end, t) == T.Read(end.docs[t], "status")
            else StateShown(end, t) == T.Text(DownWord(t.kind))
  {
    var end := Run(s, steps).takedown;
    T.StartHolds(s.takedown, t);
    RunKeepsTakedowns(T.BaseOf(s.takedown, t), s, t, steps);
    var i := T.ActiveFor(end.removals, t).value;
    assert T.IsActive(end, i, t);
    HeldIsShown(BaseAfterAll(T.BaseOf(s.takedown, t), s, t, steps), end, end.removals[i]);
  }

  /** The author as the preview reads it. */
  function AuthorShown(t: T.Target, doc: T.Doc): Option<Id> {
    var author := T.Read(doc, match t.kind
                              case Message => "senderId"
                              case Wish => "authorId"
                              case Event => "hostId"
                              case MemoryWish => "contributorId"
                              case MemoryReply => "authorId"
                              case ThankYou => "recipientId"
                              case Reel => "initiatorId"
                              case GroupGift => "initiatorId"
                              case _ => "ownerId");
    if t.kind == T.Profile then Some(t.id) else if author.Ref? then Some(author.id) else None
  }

  /** Whoever a moderator is shown as the author is who is told of the takedown, a profile's being the user that names it. */
  lemma AuthorIsTold(t: T.Target, doc: T.Doc)
    requires t.kind == T.Profile ==> T.Read(doc, "userId") == T.Ref(t.id)
    ensures AuthorShown(t, doc) == T.OwnerOf(t.kind, doc)
  {
  }

  // ---------------------------------------------------------------------------
  // The service
  // ---------------------------------------------------------------------------

  class ModerationService {
    var reports: seq<Report>
    var users: map<Id, UserStatus>
    var audit: seq<Row>
    const takedown: T.TakedownService

    function View(): State
      reads this, takedown
    {
      State(reports, users, takedown.View(), audit)
    }

    constructor (reports: seq<Report>, users: map<Id, UserStatus>, audit: seq<Row>, takedown: T.TakedownService)
      ensures this.takedown == takedown && View() == State(reports, users, takedown.View(), audit)
    {
      this.reports, this.users, this.audit, this.takedown := reports, users, audit, takedown;
    }

    /** Files a report, or gives the one already filed under its key. */
    method UpsertReport(f: Filing) returns (id: nat)
      modifies this
      ensures View() == Filed(old(View()), f)
      ensures id < |reports| && SameKey(reports[id], NewReport(f))
    {
      var existing := Existing(reports, NewReport(f));
      if existing.Some? {
        return existing.value;
      }
      reports := reports + [NewReport(f)];
      id := |reports| - 1;
    }

    method Claim(i: nat, actor: Id, takeOver: bool) returns (result: Result<Report>)
      modifies this
      ensures View() == Claimed(old(View()), i, actor, takeOver)
      ensures match ClaimError(old(View()), i, actor, takeOver)
              case Some(e) => result == Err(e)
              case None => result == Ok(reports[i]) && reports[i].assignedTo == Some(actor)
    {
      if i >= |reports| {
        return Err(ReportNotFound);
      }
      var holder := reports[i].assignedTo;
      if holder.Some? && holder.value != actor && !takeOver {
        return Err(ReportClaimed);
      }
      reports := reports[i := reports[i].(assignedTo := Some(actor), assignedAt := Some(takedown.now))];
      result := Ok(reports[i]);
    }

    method Release(i: nat, actor: Id) returns (result: Result<Report>)
      modifies this
      ensures View() == LetGo(old(View()), i, actor)
      ensures match ClaimError(old(View()), i, actor, false)
              case Some(e) => result == Err(e)
              case None => result == Ok(reports[i]) && reports[i].assignedTo == None
    {
      if i >= |reports| {
        return Err(ReportNotFound);
      }
      if reports[i].assignedTo.Some? && reports[i].assignedTo.value != actor {
        return Err(ReportClaimed);
      }
      reports := reports[i := reports[i].(assignedTo := None, assignedAt := None)];
      result := Ok(reports[i]);
    }

    /** Suspends a user, or takes content down; it fails where the user is gone. */
    method RemoveTarget(i: nat, actor: Id, reason: Option<string>) returns (failed: bool)
      requires i < |reports|
      modifies this, takedown
      ensures failed <==> old(reports)[i].targetType.Person? && !KnownUser(old(View()), old(reports)[i].targetId)
      ensures View() == if failed then old(View()) else TargetRemoved(old(View()), i, actor, reason)
    {
      var r := reports[i];
      match r.targetType {
        case Person =>
          if r.targetId.Malformed? || r.targetId.id !in users {
            return true;
          }
          users := users[r.targetId.id := Suspended];
        case Content(kind) =>
          var id := if r.targetId.Valid? then Some(r.targetId.id) else None;
          var _, _ := takedown.Remove(kind, id, T.Input(actor, reason, Some(i)));
      }
      failed := false;
    }

    /** Handles a report once; a report already handled, or whose person is gone, is an error and changes nothing. */
    method Act(i: nat, action: Action, actor: Id, reason: Option<string>) returns (result: Result<Report>)
      modifies this, takedown
      ensures View() == Actioned(old(View()), i, action, actor, reason)
      ensures match ActError(old(View()), i, action)
              case Some(e) => result == Err(e)
              case None => result == Ok(reports[i]) && reports[i].status.Handled()
    {
      if i >= |reports| {
        return Err(ReportNotFound);
      }
      if reports[i].status.Handled() {
        return Err(AlreadyHandled);
      }
      var at := takedown.now;
      var status := Dismissed;
      if action == Remove {
        var failed := RemoveTarget(i, actor, reason);
        if failed {
          return Err(UserNotFound);
        }
        status := Resolved;
      }
      reports := reports[i := reports[i].(status := status, resolution := Some(ResolutionOf(action, reason)),
                                          handledBy := Some(actor), handledAt := Some(at))];
      audit := audit + [Acted(i, action, actor)];
      result := Ok(reports[i]);
    }

    /** Acts on each distinct id; those it succeeds on and those it fails on are told by how things stood beforehand. */
    method BulkAct(ids: seq<nat>, action: Action, actor: Id, reason: Option<string>) returns (done: seq<nat>, failed: seq<(nat, Error)>)
      modifies this, takedown
      ensures View() == ActedOnAll(old(View()), Distinct(ids), action, actor, reason)
      ensures done == Doable(old(View()), Distinct(ids), action)
      ensures failed == Undoable(old(View()), Distinct(ids), action)
    {
      done, failed := [], [];
      var distinct := Distinct(ids);
      DistinctIsASet(ids);
      ghost var start := View();
      for n := 0 to |distinct|
        invariant View() == ActedOnAll(start, distinct[..n], action, actor, reason)
        invariant done == Doable(start, distinct[..n], action)
        invariant failed == Undoable(start, distinct[..n], action)
      {
        BulkStep(start, distinct, n, action, actor, reason);
        var result := Act(distinct[n], action, actor, reason);
        if result.Ok? {
          done := done + [distinct[n]];
        } else {
          failed := failed + [(distinct[n], result.error)];
        }
      }
      assert distinct[..|distinct|] == distinct;
    }

    /** Undoes a report's removal, once, and says so on the report. */
    method Restore(i: nat, actor: Id, why: string) returns (result: Result<Report>)
      modifies this, takedown
      ensures View() == Restored(old(View()), i, actor, why)
      ensures match RestoreError(old(View()), i)
              case Some(e) => result == Err(e)
              case None => result == Ok(reports[i]) && reports[i].status == Dismissed
    {
      if i >= |reports| {
        return Err(ReportNotFound);
      }
      var r := reports[i];
      if r.status != Resolved {
        return Err(NotRestorable);
      }
      var at := takedown.now;
      match r.targetType {
        case Person =>
          if r.targetId.Malformed? || r.targetId.id !in users {
            return Err(UserNotFound);
          }
          users := users[r.targetId.id := Active];
        case Content(kind) =>
          var active := if r.targetId.Valid? then T.ActiveFor(takedown.removals, T.Target(kind, r.targetId.id)) else None;
          if active.None? {
            return Err(NotRestorable);
          }
          var back := takedown.Restore(active.value, actor);
          if back.Err? {
            return Err(NotRestorable);
          }
      }
      reports := reports[i := r.(status := Dismissed, resolution := Some("Restored: " + why),
                                 handledBy := Some(actor), handledAt := Some(at))];
      audit := audit + [PutBack(i, actor)];
      result := Ok(reports[i]);
    }
  }
}
