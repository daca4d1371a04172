/** The scheduled voting window (backend/app/application/core/voting_window.py), the clock-driven
    status sync (backend/app/service/voting_schedule_status_sync.py) and manual updates
    (backend/app/service/election_service.py and its twin referendum_service.py). */
module VotingWindow {
  import opened Ballots
  import opened Records

  // ---- The window ----

  predicate WithinWindow(now: Time, opens: Option<Time>, closes: Option<Time>) {
    if opens.Some? && now < opens.value then false
    else if closes.Some? && now > closes.value then false
    else true
  }

  /** OPEN or CLOSED as the schedule implies, or nothing without a schedule. */
  function ImpliedStatus(now: Time, opens: Option<Time>, closes: Option<Time>): Option<Status> {
    if opens.None? && closes.None? then None
    else if WithinWindow(now, opens, closes) then Some(Open)
    else Some(Closed)
  }

  /** The status stored on creation when none is given. */
  function InitialStatus(now: Time, opens: Option<Time>, closes: Option<Time>): Status {
    var implied := ImpliedStatus(now, opens, closes);
    if implied.Some? then implied.value else Closed
  }

  // ---- Sync ----

  function Synced(row: ContestRow, now: Time): ContestRow {
    if row.status.Cancelled? || row.status.Draft? then row
    else
      var desired := ImpliedStatus(now, row.opens, row.closes);
      if desired.None? || row.status == desired.value then row else row.(status := desired.value)
  }

  /** A row that has just been created is already in step with the clock. */
  lemma {:induction false} InitialStatusNeedsNoSync(row: ContestRow, now: Time)
    requires row.status == InitialStatus(now, row.opens, row.closes)
    ensures Synced(row, now) == row
  {
  }

  lemma {:induction false} SyncIsIdempotent(row: ContestRow, now: Time)
    ensures Synced(Synced(row, now), now) == Synced(row, now)
    ensures Synced(row, now).(status := row.status) == row
    ensures row.status.Draft? <==> Synced(row, now).status.Draft?
    ensures row.status.Cancelled? <==> Synced(row, now).status.Cancelled?
  {
  }

  /** A sync leaves drafts, cancelled rows and rows without a schedule alone; any other is open from its
      opening time to its closing time, both included, and closed before and after. */
  lemma {:induction false} SyncIs(row: ContestRow, now: Time)
    ensures Synced(row, now).opens == row.opens && Synced(row, now).closes == row.closes
    ensures Synced(row, now).system == row.system
    ensures row.status.Draft? || row.status.Cancelled? || (row.opens.None? && row.closes.None?) ==>
      Synced(row, now).status == row.status
    ensures !row.status.Draft? && !row.status.Cancelled? && (row.opens.Some? || row.closes.Some?) ==>
      && (Synced(row, now).status.Open? || Synced(row, now).status.Closed?)
      && (Synced(row, now).status.Open?
          <==> (row.opens.Some? ==> row.opens.value <= now) && (row.closes.Some? ==> now <= row.closes.value))
  {
  }

  /** A new row is open exactly when it has a schedule and now is within it, and closed otherwise. */
  lemma {:induction false} InitialStatusIs(now: Time, opens: Option<Time>, closes: Option<Time>)
    ensures InitialStatus(now, opens, closes).Open?
            <==> (opens.Some? || closes.Some?)
                 && (opens.Some? ==> opens.value <= now) && (closes.Some? ==> now <= closes.value)
    ensures !InitialStatus(now, opens, closes).Open? ==> InitialStatus(now, opens, closes).Closed?
  {
  }

  // ---- Manual updates ----

  datatype UpdateError = NotFound | DraftOnlyField | BadTransition | NothingToUpdate

  /** The update request; absent fields are `None` or false. `system` comes with `election_type`. */
  datatype Update = Update(status: Option<Status>, opens: Option<Time>, closes: Option<Time>,
                           system: Option<System>, otherDraftColumns: bool, constituencies: bool)

  datatype Updated = Accepted(row: ContestRow) | Rejected(error: UpdateError)

  /** `_VALID_TRANSITIONS`. */
  predicate MayBecome(from: Status, to: Status) {
    match from
    case Draft => to.Open? || to.Cancelled?
    case Open => to.Draft? || to.Closed? || to.Cancelled?
    case Closed => to.Open? || to.Cancelled?
    case Cancelled => false
  }

  function Either<T>(given: Option<T>, stored: Option<T>): Option<T> {
    if given.Some? then given else stored
  }

  /** A manual close before the window ends also moves the end of the window to now. */
  function SnappedCloses(row: ContestRow, dto: Update, now: Time): Option<Time> {
    if dto.status == Some(Closed) && row.closes.Some? && row.closes.value > now then Some(now) else dto.closes
  }

  /** The columns after the repository's update, where an absent field never overwrites. */
  function Overwritten(row: ContestRow, dto: Update, now: Time): ContestRow {
    ContestRow(if dto.status.Some? then dto.status.value else row.status,
               Either(dto.opens, row.opens),
               Either(SnappedCloses(row, dto, now), row.closes),
               if row.status.Draft? && dto.system.Some? then dto.system.value else row.system)
  }

  /** Reopening drops a closing time that has passed. */
  function Reopened(row: ContestRow, dto: Update, updated: ContestRow, now: Time): ContestRow {
    if dto.status == Some(Open) && row.status.Closed? && updated.closes.Some? && updated.closes.value <= now
    then updated.(closes := None) else updated
  }

  /** `update_election`, on the row it is given. */
  function UpdateRow(row: ContestRow, dto: Update, now: Time): Updated {
    if !row.status.Draft? && (dto.system.Some? || dto.otherDraftColumns || dto.constituencies) then
      Rejected(DraftOnlyField)
    else if dto.status.Some? && !MayBecome(row.status, dto.status.value) then
      Rejected(BadTransition)
    else if dto.status.None? && dto.opens.None? && dto.closes.None?
            && !(row.status.Draft? && (dto.system.Some? || dto.otherDraftColumns)) then
      Rejected(NothingToUpdate)
    else
      var updated := Reopened(row, dto, Overwritten(row, dto, now), now);
      Accepted(if dto.status.None? && !row.status.Draft? then Synced(updated, now) else updated)
  }

  /** An update is accepted exactly when it asks for something, for the columns of drafts on drafts only,
      and for a status that this one may become. Otherwise the first of the three that fails is the error. */
  lemma {:induction false} UpdateAcceptedExactlyWhen(row: ContestRow, dto: Update, now: Time)
    ensures var draftOnly := dto.system.Some? || dto.otherDraftColumns || dto.constituencies;
      var transitions := {(Draft, Open), (Draft, Cancelled), (Open, Draft), (Open, Closed), (Open, Cancelled),
                          (Closed, Open), (Closed, Cancelled)};
      var allowed := dto.status.Some? ==> (row.status, dto.status.value) in transitions;
      var something := dto.status.Some? || dto.opens.Some? || dto.closes.Some?
                       || (row.status.Draft? && (dto.system.Some? || dto.otherDraftColumns));
      && (UpdateRow(row, dto, now).Accepted? <==> (row.status.Draft? || !draftOnly) && allowed && something)
      && (UpdateRow(row, dto, now) == Rejected(DraftOnlyField) <==> !row.status.Draft? && draftOnly)
      && (UpdateRow(row, dto, now) == Rejected(BadTransition)
          <==> (row.status.Draft? || !draftOnly) && !allowed)
      && UpdateRow(row, dto, now) != Rejected(NotFound)
  {
  }

  /** A row that carries what an update asks for, column by column: the closing time is now on an early
      close, and gone on a late reopening. */
  predicate Carries(after: ContestRow, row: ContestRow, dto: Update, now: Time) {
    var closesEarly := dto.status == Some(Closed) && row.closes.Some? && now < row.closes.value;
    var end := if closesEarly then Some(now) else if dto.closes.Some? then dto.closes else row.closes;
    var reopensLate := row.status.Closed? && dto.status == Some(Open) && end.Some? && end.value <= now;
    && after.opens == (if dto.opens.Some? then dto.opens else row.opens)
    && after.closes == (if reopensLate then None else end)
    && after.system == (if dto.system.Some? then dto.system.value else row.system)
  }

  /** Every accepted update is carried out. */
  lemma {:induction false} UpdateStoresWhatIsAsked(row: ContestRow, dto: Update, now: Time)
    requires UpdateRow(row, dto, now).Accepted?
    ensures Carries(UpdateRow(row, dto, now).row, row, dto, now)
  {
  }

  /** Its status is the one asked for; drafts stay drafts and cancelled rows cancelled; otherwise the new
      schedule decides, if there is one. */
  lemma {:induction false} StatusAfterUpdate(row: ContestRow, dto: Update, now: Time)
    requires UpdateRow(row, dto, now).Accepted?
    ensures var after := UpdateRow(row, dto, now).row;
      && (dto.status.Some? ==> after.status == dto.status.value)
      && (dto.status.None? && (row.status.Draft? || row.status.Cancelled?) ==> after.status == row.status)
      && (dto.status.None? && !row.status.Draft? && !row.status.Cancelled? ==>
            if after.opens.None? && after.closes.None? then after.status == row.status
            else if (after.opens.Some? && now < after.opens.value) || (after.closes.Some? && now > after.closes.value)
            then after.status.Closed? else after.status.Open?)
  {
  }

  /** An accepted update moves the status along an allowed transition or not by hand at all, changes
      the electoral system of drafts only, and a time only when asked to, when closing early or when
      reopening late. */
  lemma {:induction false} UpdateChangesOnlyWhatIsAsked(row: ContestRow, dto: Update, now: Time)
    requires UpdateRow(row, dto, now).Accepted?
    ensures var after := UpdateRow(row, dto, now).row;
      && (dto.status.Some? ==> MayBecome(row.status, after.status) && after.status == dto.status.value)
      && (dto.status.None? ==> after.status == Synced(after.(status := row.status), now).status)
      && (after.system != row.system ==> row.status.Draft? && dto.system == Some(after.system))
      && (dto.system.Some? ==> after.system == dto.system.value)
      && (after.opens != row.opens ==> after.opens.Some? && after.opens == dto.opens)
      && (dto.opens.Some? ==> after.opens == dto.opens)
      && (after.closes != row.closes ==>
            (after.closes.Some? && after.closes == dto.closes)
            || (row.status.Open? && after.status.Closed? && row.closes.Some? && now < row.closes.value
              && after.closes == Some(now))
            || (row.status.Closed? && after.status.Open? && after.closes.None?))
  {
  }

  ghost predicate StatusOnly(dto: Update) {
    dto.status.Some? && dto.opens.None? && dto.closes.None?
  }

  // ---- What the lifecycle guarantees ----

  /** CANCELLED is final: neither the clock nor any accepted update leaves it. */
  lemma {:induction false} CancelledIsFinal(row: ContestRow, dto: Update, now: Time)
    requires row.status.Cancelled?
    ensures Synced(row, now) == row
    ensures UpdateRow(row, dto, now).Accepted? ==> UpdateRow(row, dto, now).row.status.Cancelled?
  {
  }

  /** A manual close at `t` survives every later sync, unless only an opening time is set and it
      arrives by then. */
  lemma {:induction false} ManualCloseSurvives(row: ContestRow, dto: Update, t: Time, later: Time)
    requires row.status.Open? && dto == Update(Some(Closed), None, None, None, false, false) && t < later
    ensures UpdateRow(row, dto, t).Accepted? && UpdateRow(row, dto, t).row.status.Closed?
    ensures Synced(UpdateRow(row, dto, t).row, later).status.Closed?
            <==> row.opens.None? || row.closes.Some? || later < row.opens.value
  {
  }

  /** The snap is too weak for one instant only: a sync at the very time of the close. */
  lemma {:induction false} CloseUndoneAtSameInstant(row: ContestRow, dto: Update, t: Time)
    requires row.status.Open? && dto == Update(Some(Closed), None, None, None, false, false)
    ensures Synced(UpdateRow(row, dto, t).row, t).status.Open?
            <==> (row.opens.Some? || row.closes.Some?) && (row.opens.None? || row.opens.value <= t)
                 && (row.closes.None? || t <= row.closes.value)
  {
  }

  /** Reopening is not undone by any later sync while the window that is left lasts; a closing time
      that has passed no longer counts. */
  lemma {:induction false} ReopeningSurvives(row: ContestRow, dto: Update, t: Time, later: Time)
    requires row.status.Closed? && dto == Update(Some(Open), None, None, None, false, false) && t <= later
    ensures UpdateRow(row, dto, t).Accepted?
    ensures Synced(UpdateRow(row, dto, t).row, later).status.Open?
            <==> (row.opens.None? || row.opens.value <= later)
                 && (row.closes.None? || row.closes.value <= t || later <= row.closes.value)
  {
  }

  // ---- When a closed contest can still take votes ----

  /** A closed row whose schedule lets no sync from `t` on open it. */
  predicate LockedFrom(row: ContestRow, t: Time) {
    || (row.opens.None? && row.closes.None?)
    || (row.closes.Some? && (row.closes.value < t || (row.opens.Some? && row.closes.value < row.opens.value)))
  }

  /** The first instant from `t` on that is not before the opening time. */
  function OpeningInstant(row: ContestRow, t: Time): Time {
    if row.opens.Some? && row.opens.value > t then row.opens.value else t
  }

  /** Exactly the locked rows stay closed at every later time. */
  lemma {:induction false} LockedMeansClosedForGood(row: ContestRow, t: Time)
    requires row.status.Closed?
    ensures LockedFrom(row, t) <==> forall later :: t <= later ==> Synced(row, later).status.Closed?
  {
    if !LockedFrom(row, t) {
      assert Synced(row, OpeningInstant(row, t)).status.Open?;
    }
  }
}
