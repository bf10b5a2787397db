/**
 * The Booking model: a booking ties an e-mail address to an event. The schema
 * requires both fields and normalises and checks the address; the pre-save hook
 * checks that the referenced event exists. The `eventId` index and the compound
 * (`eventId`, `email`) index are not unique, so only `_id` is.
 */
module BookingModel {
  import opened Wrappers
  import opened Text
  import opened EmailAddress
  import EventModel

  type BookingId = nat

  /** A stored booking. A missing `eventId` is `None`; a missing address is the empty string. */
  datatype Booking = Booking(id: BookingId, eventId: Option<EventModel.EventId>, email: string)

  /** The schema's paths, the keys of a validation error. */
  datatype BookingPath = EventIdPath | EmailPath

  const EventIdRequired := "Event ID is required"
  const EmailRequired := "Email is required"
  const EventNotFoundError := "Event not found. Cannot create booking for non-existent event."
  const LookupError := "Error validating event reference"

  // ---- setters and validators ----

  /** The record `new Booking(input)` holds: the address lower-cased, then trimmed. */
  function ApplyBookingSetters(b: Booking): Booking {
    b.(email := NormalizeEmail(b.email))
  }

  /** The first failing validator of a path: `required`, then the address pattern. */
  function BookingPathError(b: Booking, p: BookingPath): Option<string> {
    match p
    case EventIdPath => if b.eventId.None? then Some(EventIdRequired) else None
    case EmailPath =>
      if b.email == "" then Some(EmailRequired)
      else if !IsValidEmail(b.email) then Some(InvalidEmailError)
      else None
  }

  /** The `errors` of the ValidationError that `validate()` raises, keyed by path. */
  function BookingValidationErrors(b: Booking): map<BookingPath, string> {
    map p | p in {EventIdPath, EmailPath} && BookingPathError(b, p).Some? :: BookingPathError(b, p).value
  }

  /** What the schema demands of a booking. */
  predicate ValidBooking(b: Booking) {
    b.eventId.Some? && IsValidEmail(b.email)
  }

  /** Validation passes exactly when the booking names an event and carries an accepted address. */
  lemma BookingValidationEmpty(b: Booking)
    ensures BookingValidationErrors(b) == map[] <==> ValidBooking(b)
  {
    if !ValidBooking(b) {
      if b.eventId.None? {
        assert EventIdPath in BookingValidationErrors(b);
      } else {
        assert EmailPath in BookingValidationErrors(b);
      }
    }
  }

  /** A missing event id or a missing address is reported with its own `required` message. */
  lemma MissingFieldsReported(b: Booking)
    ensures b.eventId.None? ==> BookingValidationErrors(b)[EventIdPath] == EventIdRequired
    ensures b.email == "" ==> BookingValidationErrors(b)[EmailPath] == EmailRequired
    ensures b.email != "" && !IsValidEmail(b.email) ==> BookingValidationErrors(b)[EmailPath] == InvalidEmailError
  {
  }

  /** The validator sees the address after the setters: what it checks is the normalised input. */
  lemma CreatedEmailChecked(input: Booking)
    ensures EmailPath !in BookingValidationErrors(ApplyBookingSetters(input)) <==> IsValidEmail(NormalizeEmail(input.email))
  {
  }

  /** An address given with surrounding white space and capitals is stored trimmed and lower-cased, and then checked. */
  lemma CreatedSpacedEmail(input: Booking, pre: string, e: string, post: string)
    requires forall i :: 0 <= i < |pre| ==> IsSpace(pre[i])
    requires forall i :: 0 <= i < |post| ==> IsSpace(post[i])
    requires e != [] && !IsSpace(e[0]) && !IsSpace(e[|e| - 1])
    requires input.email == pre + e + post
    ensures ApplyBookingSetters(input).email == Lower(e)
    ensures EmailPath !in BookingValidationErrors(ApplyBookingSetters(input)) <==> IsValidEmail(Lower(e))
  {
    NormalizeSpacedAddress(input.email, pre, e, post);
  }

  // ---- the pre-save hook ----

  /**
   * The hook's error, if any. The reference is checked only on a new booking or when
   * `eventId` changed; `lookupFails` stands for `Event.findById` throwing.
   */
  function ReferenceCheck(b: Booking, isNew: bool, modified: set<BookingPath>, events: seq<EventModel.Event>, lookupFails: bool): Option<string> {
    if isNew || EventIdPath in modified then
      if lookupFails then Some(LookupError)
      else match b.eventId
        case None => Some(EventNotFoundError)
        case Some(id) => if EventModel.FindById(events, id).None? then Some(EventNotFoundError) else None
    else None
  }

  /** The check refuses exactly a new or re-pointed booking whose event is missing or cannot be looked up. */
  lemma ReferenceCheckMeaning(b: Booking, isNew: bool, modified: set<BookingPath>, events: seq<EventModel.Event>, lookupFails: bool)
    requires b.eventId.Some?
    ensures ReferenceCheck(b, isNew, modified, events, lookupFails).None? <==>
      (isNew || EventIdPath in modified ==> !lookupFails && exists x :: x in events && x.id == b.eventId.value)
    ensures ReferenceCheck(b, isNew, modified, events, lookupFails) == Some(EventNotFoundError) <==>
      (isNew || EventIdPath in modified) && !lookupFails && forall x :: x in events ==> x.id != b.eventId.value
    ensures ReferenceCheck(b, isNew, modified, events, lookupFails) == Some(LookupError) <==>
      (isNew || EventIdPath in modified) && lookupFails
  {
  }

  /** An update of an existing booking that leaves `eventId` alone does not look at the events at all. */
  lemma EmailOnlyUpdateSkipsCheck(b: Booking, modified: set<BookingPath>, events: seq<EventModel.Event>, lookupFails: bool)
    requires EventIdPath !in modified
    ensures ReferenceCheck(b, false, modified, events, lookupFails) == None
  {
  }

  // ---- documents ----

  /** A document of the Booking model. */
  class BookingDocument {
    var data: Booking
    var isNew: bool
    var modified: set<BookingPath>

    /** `new Booking(input)`: the address goes through its setters; every field given counts as changed. */
    constructor (input: Booking)
      ensures data == ApplyBookingSetters(input) && isNew
      ensures modified == (if input.eventId.Some? then {EventIdPath} else {}) + (if input.email != "" then {EmailPath} else {})
    {
      data := ApplyBookingSetters(input);
      isNew := true;
      modified := (if input.eventId.Some? then {EventIdPath} else {}) + (if input.email != "" then {EmailPath} else {});
    }

    /** A booking as a query returns it: stored, with nothing changed. */
    constructor Loaded(stored: Booking)
      ensures data == stored && !isNew && modified == {}
    {
      data := stored;
      isNew := false;
      modified := {};
    }

    /** `doc.email = raw`: the setters run, and the path counts as changed when new or different. */
    method AssignEmail(raw: string)
      modifies this
      ensures data == old(data).(email := NormalizeEmail(raw)) && isNew == old(isNew)
      ensures modified == if isNew || NormalizeEmail(raw) != old(data).email then old(modified) + {EmailPath} else old(modified)
    {
      var v := NormalizeEmail(raw);
      if isNew || v != data.email {
        modified := modified + {EmailPath};
      }
      data := data.(email := v);
    }

    /** `doc.eventId = id`. */
    method AssignEventId(id: Option<EventModel.EventId>)
      modifies this
      ensures data == old(data).(eventId := id) && isNew == old(isNew)
      ensures modified == if isNew || id != old(data).eventId then old(modified) + {EventIdPath} else old(modified)
    {
      if isNew || id != data.eventId {
        modified := modified + {EventIdPath};
      }
      data := data.(eventId := id);
    }

    /** The pre-save hook: the reference check, which changes nothing in the document. */
    method PreSave(events: EventModel.EventCollection, lookupFails: bool) returns (err: Option<string>)
      ensures err == ReferenceCheck(data, isNew, modified, events.events, lookupFails)
    {
      if isNew || EventIdPath in modified {
        if lookupFails {
          return Some(LookupError);
        }
        var found := if data.eventId.Some? then EventModel.FindById(events.events, data.eventId.value) else None;
        if found.None? {
          return Some(EventNotFoundError);
        }
      }
      return None;
    }

    /** After a successful write the document is stored and nothing counts as changed. */
    method MarkSaved()
      modifies this
      ensures data == old(data) && !isNew && modified == {}
    {
      isNew := false;
      modified := {};
    }
  }

  // ---- the store ----

  /** Why a save is refused. */
  datatype BookingSaveError =
    | ValidationFailed(errors: map<BookingPath, string>)
    | HookFailed(message: string)
    | DuplicateKey(index: string)
    | DocumentNotFound

  /** The `_id` index, the only unique one: no two stored bookings share an id. */
  predicate BookingIdsUnique(bs: seq<Booking>) {
    forall i, j :: 0 <= i < j < |bs| ==> bs[i].id != bs[j].id
  }

  /** Writing a new booking: only the `_id` index can refuse it. */
  function InsertBooking(bs: seq<Booking>, b: Booking): Result<seq<Booking>, BookingSaveError> {
    if exists x :: x in bs && x.id == b.id then Failure(DuplicateKey("_id"))
    else Success(bs + [b])
  }

  /** `stored` with the paths in `paths` taken from `b`: what a `$set` of those paths leaves. */
  function MergeBooking(stored: Booking, b: Booking, paths: set<BookingPath>): (r: Booking)
    ensures r.id == stored.id
    ensures r.eventId == (if EventIdPath in paths then b else stored).eventId
    ensures r.email == (if EmailPath in paths then b else stored).email
  {
    Booking(stored.id, if EventIdPath in paths then b.eventId else stored.eventId,
      if EmailPath in paths then b.email else stored.email)
  }

  /** A loaded booking is up to date when the stored one agrees with it on every path it did not change. */
  predicate BookingUpToDate(stored: Booking, b: Booking, paths: set<BookingPath>) {
    && stored.id == b.id
    && (EventIdPath !in paths ==> stored.eventId == b.eventId)
    && (EmailPath !in paths ==> stored.email == b.email)
  }

  /** Writing the changed paths of an up-to-date booking stores exactly that booking. */
  lemma MergeBookingUpToDate(stored: Booking, b: Booking, paths: set<BookingPath>)
    requires BookingUpToDate(stored, b, paths)
    ensures MergeBooking(stored, b, paths) == b
  {
  }

  /**
   * Writing a loaded booking back: a `$set` of the paths in `paths` on the stored
   * booking with its id, refused when no booking has the id.
   */
  function ReplaceBooking(bs: seq<Booking>, b: Booking, paths: set<BookingPath>): Result<seq<Booking>, BookingSaveError> {
    if forall x :: x in bs ==> x.id != b.id then Failure(DocumentNotFound)
    else Success(seq(|bs|, i requires 0 <= i < |bs| => if bs[i].id == b.id then MergeBooking(bs[i], b, paths) else bs[i]))
  }

  /** What a save leaves in the booking store and what it resolves to. */
  datatype BookingOutcome = BookingOutcome(store: seq<Booking>, result: Result<Booking, BookingSaveError>)

  /** `doc.save()`: validation, then the reference check, then the write. */
  function SaveBooking(bs: seq<Booking>, b: Booking, isNew: bool, modified: set<BookingPath>,
                       events: seq<EventModel.Event>, lookupFails: bool): BookingOutcome {
    var errors := BookingValidationErrors(b);
    if errors != map[] then BookingOutcome(bs, Failure(ValidationFailed(errors)))
    else match ReferenceCheck(b, isNew, modified, events, lookupFails)
      case Some(msg) => BookingOutcome(bs, Failure(HookFailed(msg)))
      case None =>
        match (if isNew then InsertBooking(bs, b) else ReplaceBooking(bs, b, modified))
        case Failure(err) => BookingOutcome(bs, Failure(err))
        case Success(next) => BookingOutcome(next, Success(b))
  }

  /**
   * A save either is refused and leaves the bookings as they were, or stores a valid
   * booking: a new one grows the store by exactly that booking, an update writes its
   * changed paths over the booking with its id. A new booking is stored only if its
   * event exists.
   */
  lemma SaveBookingEffect(bs: seq<Booking>, b: Booking, isNew: bool, modified: set<BookingPath>,
                          events: seq<EventModel.Event>, lookupFails: bool)
    requires BookingIdsUnique(bs)
    ensures var o := SaveBooking(bs, b, isNew, modified, events, lookupFails);
      && BookingIdsUnique(o.store)
      && (o.result.Failure? ==> o.store == bs)
      && (o.result.Success? ==> o.result.value == b && ValidBooking(b))
      && (o.result.Success? && isNew ==> o.store == bs + [b] && exists x :: x in events && x.id == b.eventId.value)
      && (o.result.Success? && !isNew ==>
            && |o.store| == |bs|
            && forall i :: 0 <= i < |bs| ==> o.store[i] == if bs[i].id == b.id then MergeBooking(bs[i], b, modified) else bs[i])
  {
    var o := SaveBooking(bs, b, isNew, modified, events, lookupFails);
    BookingValidationEmpty(b);
    if o.result.Success? {
      ReferenceCheckMeaning(b, isNew, modified, events, lookupFails);
      var s := o.store;
      forall i, j | 0 <= i < j < |s| ensures s[i].id != s[j].id {
        if isNew && j == |bs| {
          assert s[i] in bs;
        }
      }
    }
  }

  /** A valid new booking whose event does not exist is refused with "Event not found…", and nothing is stored. */
  lemma NewBookingNeedsEvent(bs: seq<Booking>, b: Booking, modified: set<BookingPath>, events: seq<EventModel.Event>)
    requires ValidBooking(b) && forall x :: x in events ==> x.id != b.eventId.value
    ensures SaveBooking(bs, b, true, modified, events, false) == BookingOutcome(bs, Failure(HookFailed(EventNotFoundError)))
  {
    BookingValidationEmpty(b);
    ReferenceCheckMeaning(b, true, modified, events, false);
  }

  /** When the lookup itself fails, a valid new or re-pointed booking is refused with the lookup error. */
  lemma LookupFailureRefuses(bs: seq<Booking>, b: Booking, isNew: bool, modified: set<BookingPath>, events: seq<EventModel.Event>)
    requires ValidBooking(b) && (isNew || EventIdPath in modified)
    ensures SaveBooking(bs, b, isNew, modified, events, true) == BookingOutcome(bs, Failure(HookFailed(LookupError)))
  {
    BookingValidationEmpty(b);
  }

  /**
   * The same event and address may be booked twice: a valid new booking with a fresh
   * id and an existing event is stored even when an equal (`eventId`, `email`) pair is.
   */
  lemma DuplicatePairAllowed(bs: seq<Booking>, b: Booking, events: seq<EventModel.Event>, twin: Booking)
    requires ValidBooking(b) && (exists x :: x in events && x.id == b.eventId.value)
    requires forall x :: x in bs ==> x.id != b.id
    requires twin in bs && twin.eventId == b.eventId && twin.email == b.email
    ensures var o := SaveBooking(bs, b, true, {EventIdPath, EmailPath}, events, false);
      o == BookingOutcome(bs + [b], Success(b)) && twin in o.store && b in o.store
  {
    BookingValidationEmpty(b);
    ReferenceCheckMeaning(b, true, {EventIdPath, EmailPath}, events, false);
  }

  /**
   * Saving an existing booking that does not change its event succeeds whatever the
   * events hold, and the stored booking keeps the event it had.
   */
  lemma EmailOnlyUpdateIgnoresEvents(bs: seq<Booking>, b: Booking, modified: set<BookingPath>,
                                     events: seq<EventModel.Event>, lookupFails: bool)
    requires EventIdPath !in modified && ValidBooking(b) && exists x :: x in bs && x.id == b.id
    ensures var o := SaveBooking(bs, b, false, modified, events, lookupFails);
      && o.result == Success(b)
      && |o.store| == |bs|
      && forall i :: 0 <= i < |bs| && bs[i].id == b.id ==> o.store[i].eventId == bs[i].eventId
  {
    BookingValidationEmpty(b);
  }

  /**
   * Saving a loaded booking that is up to date with the store puts exactly that
   * booking in place of the stored booking with its id.
   */
  lemma UpToDateBookingSaveStoresDoc(bs: seq<Booking>, b: Booking, modified: set<BookingPath>,
                                     events: seq<EventModel.Event>, lookupFails: bool)
    requires BookingIdsUnique(bs)
    requires forall x :: x in bs && x.id == b.id ==> BookingUpToDate(x, b, modified)
    ensures var o := SaveBooking(bs, b, false, modified, events, lookupFails);
      o.result.Success? ==> forall i :: 0 <= i < |bs| ==> o.store[i] == if bs[i].id == b.id then b else bs[i]
  {
    var o := SaveBooking(bs, b, false, modified, events, lookupFails);
    if o.result.Success? {
      SaveBookingEffect(bs, b, false, modified, events, lookupFails);
      forall i | 0 <= i < |bs| && bs[i].id == b.id ensures o.store[i] == b {
        assert bs[i] in bs;
        MergeBookingUpToDate(bs[i], b, modified);
      }
    }
  }

  /** The bookings collection. */
  class BookingCollection {
    var bookings: seq<Booking>

    ghost predicate Valid()
      reads this
    {
      BookingIdsUnique(bookings)
    }

    constructor ()
      ensures bookings == [] && Valid()
    {
      bookings := [];
    }

    /** `doc.save()` against this collection; the events are only read. */
    method Save(doc: BookingDocument, events: EventModel.EventCollection, lookupFails: bool)
      returns (r: Result<Booking, BookingSaveError>)
      requires Valid()
      modifies this, doc
      ensures Valid()
      ensures BookingOutcome(bookings, r) ==
        SaveBooking(old(bookings), old(doc.data), old(doc.isNew), old(doc.modified), old(events.events), lookupFails)
      ensures doc.data == old(doc.data) && doc.isNew == (old(doc.isNew) && r.Failure?)
      ensures doc.modified == if r.Success? then {} else old(doc.modified)
      ensures events.events == old(events.events)
    {
      SaveBookingEffect(bookings, doc.data, doc.isNew, doc.modified, events.events, lookupFails);
      var errors := BookingValidationErrors(doc.data);
      if errors != map[] {
        return Failure(ValidationFailed(errors));
      }
      var hookError := doc.PreSave(events, lookupFails);
      if hookError.Some? {
        return Failure(HookFailed(hookError.value));
      }
      var written := if doc.isNew then InsertBooking(bookings, doc.data) else ReplaceBooking(bookings, doc.data, doc.modified);
      if written.Failure? {
        return Failure(written.error);
      }
      bookings := written.value;
      doc.MarkSaved();
      return Success(doc.data);
    }
  }
}
