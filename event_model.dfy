/**
 * The Event model: the schema's setters and validators, the pre-save hook that
 * derives the slug and normalises the date and the time, and the store with its
 * unique index on `slug`.
 *
 * Mongoose runs a document's validators before the schema's own pre-save hooks,
 * and the unique index is enforced by the database when the document is written,
 * after the hooks. `EventCollection.Save` follows that order.
 */
module EventModel {
  import opened Wrappers
  import opened Text
  import opened Slug
  import opened TimeOfDay

  type EventId = nat

  // ---- the mode enum ----

  /** The values the `mode` enum admits. */
  datatype Mode = Online | Offline | Hybrid

  function ModeName(m: Mode): string {
    match m
    case Online => "online"
    case Offline => "offline"
    case Hybrid => "hybrid"
  }

  /** The enum check: which mode, if any, a stored string names. */
  function ParseMode(s: string): (r: Option<Mode>)
    ensures r.Some? ==> ModeName(r.value) == s
  {
    if s == "online" then Some(Online)
    else if s == "offline" then Some(Offline)
    else if s == "hybrid" then Some(Hybrid)
    else None
  }

  /** Every mode's name passes the enum check and names that mode again. */
  lemma ModeRoundTrip(m: Mode)
    ensures ParseMode(ModeName(m)) == Some(m)
  {
  }

  /** The enum check admits exactly the three names. */
  lemma ParseModeExact(s: string)
    ensures ParseMode(s).Some? <==> s == "online" || s == "offline" || s == "hybrid"
  {
  }

  // ---- records and paths ----

  /** A stored event. A field the caller did not give is the empty string or the empty list. */
  datatype Event = Event(
    id: EventId,
    title: string,
    slug: string,
    description: string,
    overview: string,
    image: string,
    venue: string,
    location: string,
    date: string,
    time: string,
    mode: string,
    audience: string,
    agenda: seq<string>,
    organizer: string,
    tags: seq<string>)

  /** The schema's paths, the keys of a validation error. */
  datatype Path =
    | TitlePath | SlugPath | DescriptionPath | OverviewPath | ImagePath | VenuePath | LocationPath
    | DatePath | TimePath | ModePath | AudiencePath | AgendaPath | OrganizerPath | TagsPath

  const AllPaths: set<Path> := {
    TitlePath, SlugPath, DescriptionPath, OverviewPath, ImagePath, VenuePath, LocationPath,
    DatePath, TimePath, ModePath, AudiencePath, AgendaPath, OrganizerPath, TagsPath}

  predicate IsListPath(p: Path) {
    p == AgendaPath || p == TagsPath
  }

  /** The string held at path `p`; the two list paths hold no string. */
  function StrAt(e: Event, p: Path): string {
    match p
    case TitlePath => e.title
    case SlugPath => e.slug
    case DescriptionPath => e.description
    case OverviewPath => e.overview
    case ImagePath => e.image
    case VenuePath => e.venue
    case LocationPath => e.location
    case DatePath => e.date
    case TimePath => e.time
    case ModePath => e.mode
    case AudiencePath => e.audience
    case OrganizerPath => e.organizer
    case AgendaPath | TagsPath => ""
  }

  /** `e` with the string at path `p` replaced by `v`. */
  function WithStr(e: Event, p: Path, v: string): (r: Event)
    requires !IsListPath(p)
    ensures StrAt(r, p) == v
    ensures forall q :: q != p ==> StrAt(r, q) == StrAt(e, q)
    ensures r.id == e.id && r.agenda == e.agenda && r.tags == e.tags
  {
    match p
    case TitlePath => e.(title := v)
    case SlugPath => e.(slug := v)
    case DescriptionPath => e.(description := v)
    case OverviewPath => e.(overview := v)
    case ImagePath => e.(image := v)
    case VenuePath => e.(venue := v)
    case LocationPath => e.(location := v)
    case DatePath => e.(date := v)
    case TimePath => e.(time := v)
    case ModePath => e.(mode := v)
    case AudiencePath => e.(audience := v)
    case OrganizerPath => e.(organizer := v)
  }

  /** Two events are equal when they agree on the id, on every string path and on both lists. */
  lemma {:induction false} EventExtensional(a: Event, b: Event)
    requires a.id == b.id && a.agenda == b.agenda && a.tags == b.tags
    requires forall p :: !IsListPath(p) ==> StrAt(a, p) == StrAt(b, p)
    ensures a == b
  {
    assert StrAt(a, TitlePath) == StrAt(b, TitlePath);
    assert StrAt(a, SlugPath) == StrAt(b, SlugPath);
    assert StrAt(a, DescriptionPath) == StrAt(b, DescriptionPath);
    assert StrAt(a, OverviewPath) == StrAt(b, OverviewPath);
    assert StrAt(a, ImagePath) == StrAt(b, ImagePath);
    assert StrAt(a, VenuePath) == StrAt(b, VenuePath);
    assert StrAt(a, LocationPath) == StrAt(b, LocationPath);
    assert StrAt(a, DatePath) == StrAt(b, DatePath);
    assert StrAt(a, TimePath) == StrAt(b, TimePath);
    assert StrAt(a, ModePath) == StrAt(b, ModePath);
    assert StrAt(a, AudiencePath) == StrAt(b, AudiencePath);
    assert StrAt(a, OrganizerPath) == StrAt(b, OrganizerPath);
  }

  // ---- setters ----

  /**
   * What assigning `raw` to a string path stores: `slug` is lower-cased and trimmed,
   * `date` and `time` are kept as given, every other string path is trimmed.
   */
  function Setter(p: Path, raw: string): string {
    match p
    case SlugPath => Trim(Lower(raw))
    case DatePath | TimePath => raw
    case _ => Trim(raw)
  }

  /** Assigning a stored value again stores it unchanged. */
  lemma SetterIdempotent(p: Path, raw: string)
    ensures Setter(p, Setter(p, raw)) == Setter(p, raw)
  {
    match p
    case SlugPath => TrimLowerIdempotent(raw);
    case DatePath | TimePath =>
    case _ => TrimIdempotent(raw);
  }

  /** The record `new Event(input)` holds: every string field passed through its setter. */
  function ApplySetters(e: Event): (r: Event)
    ensures forall p :: !IsListPath(p) ==> StrAt(r, p) == Setter(p, StrAt(e, p))
    ensures r.id == e.id && r.agenda == e.agenda && r.tags == e.tags
  {
    e.(title := Setter(TitlePath, e.title),
       slug := Setter(SlugPath, e.slug),
       description := Setter(DescriptionPath, e.description),
       overview := Setter(OverviewPath, e.overview),
       image := Setter(ImagePath, e.image),
       venue := Setter(VenuePath, e.venue),
       location := Setter(LocationPath, e.location),
       mode := Setter(ModePath, e.mode),
       audience := Setter(AudiencePath, e.audience),
       organizer := Setter(OrganizerPath, e.organizer))
  }

  /** Applying the setters to a record that already went through them changes nothing. */
  lemma ApplySettersIdempotent(e: Event)
    ensures ApplySetters(ApplySetters(e)) == ApplySetters(e)
  {
    var once := ApplySetters(e);
    forall p | !IsListPath(p)
      ensures StrAt(ApplySetters(once), p) == StrAt(once, p)
    {
      SetterIdempotent(p, StrAt(e, p));
    }
    EventExtensional(ApplySetters(once), once);
  }

  /** The paths a caller gave a value for when creating a document. */
  function Given(e: Event): set<Path> {
    set p | p in AllPaths && (if IsListPath(p) then (if p == AgendaPath then e.agenda else e.tags) != [] else StrAt(e, p) != "")
  }

  // ---- validators ----

  const ModeEnumError := "Mode must be online, offline, or hybrid"
  const AgendaEmptyError := "Agenda must contain at least one item"
  const TagsEmptyError := "Tags must contain at least one item"

  /** The `required` message of a required string path. */
  function RequiredMessage(p: Path): string {
    match p
    case TitlePath => "Title is required"
    case DescriptionPath => "Description is required"
    case OverviewPath => "Overview is required"
    case ImagePath => "Image is required"
    case VenuePath => "Venue is required"
    case LocationPath => "Location is required"
    case DatePath => "Date is required"
    case TimePath => "Time is required"
    case ModePath => "Mode is required"
    case AudiencePath => "Audience is required"
    case OrganizerPath => "Organizer is required"
    case AgendaPath => "Agenda is required"
    case TagsPath => "Tags are required"
    case SlugPath => ""
  }

  /**
   * The first failing validator of path `p`, in schema order: `required`, then the
   * enum, then the custom validator. A list path always has a value (Mongoose
   * defaults it to `[]`), so `required` passes on it and the custom validator
   * reports an empty list.
   */
  function PathError(e: Event, p: Path): Option<string> {
    match p
    case SlugPath => None
    case AgendaPath => if e.agenda == [] then Some(AgendaEmptyError) else None
    case TagsPath => if e.tags == [] then Some(TagsEmptyError) else None
    case ModePath =>
      if e.mode == "" then Some(RequiredMessage(ModePath))
      else if ParseMode(e.mode).None? then Some(ModeEnumError)
      else None
    case _ => if StrAt(e, p) == "" then Some(RequiredMessage(p)) else None
  }

  /** The `errors` of the ValidationError that `validate()` raises, keyed by path. */
  function ValidationErrors(e: Event): map<Path, string> {
    map p | p in AllPaths && PathError(e, p).Some? :: PathError(e, p).value
  }

  /** What the schema demands of an event, stated field by field. */
  predicate ValidEvent(e: Event) {
    && e.title != "" && e.description != "" && e.overview != "" && e.image != ""
    && e.venue != "" && e.location != "" && e.date != "" && e.time != ""
    && ParseMode(e.mode).Some? && e.audience != "" && e.agenda != []
    && e.organizer != "" && e.tags != []
  }

  /** Validation passes exactly when every field meets its schema rule. */
  lemma ValidationErrorsEmpty(e: Event)
    ensures ValidationErrors(e) == map[] <==> ValidEvent(e)
  {
    if ValidEvent(e) {
      forall p | p in AllPaths ensures PathError(e, p).None? {
      }
    } else {
      var p :| p in AllPaths && PathError(e, p).Some? by {
        if e.title == "" { assert PathError(e, TitlePath).Some?; }
        else if e.description == "" { assert PathError(e, DescriptionPath).Some?; }
        else if e.overview == "" { assert PathError(e, OverviewPath).Some?; }
        else if e.image == "" { assert PathError(e, ImagePath).Some?; }
        else if e.venue == "" { assert PathError(e, VenuePath).Some?; }
        else if e.location == "" { assert PathError(e, LocationPath).Some?; }
        else if e.date == "" { assert PathError(e, DatePath).Some?; }
        else if e.time == "" { assert PathError(e, TimePath).Some?; }
        else if ParseMode(e.mode).None? { assert PathError(e, ModePath).Some?; }
        else if e.audience == "" { assert PathError(e, AudiencePath).Some?; }
        else if e.agenda == [] { assert PathError(e, AgendaPath).Some?; }
        else if e.organizer == "" { assert PathError(e, OrganizerPath).Some?; }
        else { assert PathError(e, TagsPath).Some?; }
      }
      assert p in ValidationErrors(e);
    }
  }

  /** A mode outside the enum is reported on `mode`, with the enum's message when it is not empty. */
  lemma ModeOutsideEnum(e: Event)
    ensures ModePath in ValidationErrors(e) <==> ParseMode(e.mode).None?
    ensures e.mode != "" && ParseMode(e.mode).None? ==> ValidationErrors(e)[ModePath] == ModeEnumError
  {
    assert ParseMode("").None?;
  }

  /** An empty agenda or an empty tag list is reported on its own path. */
  lemma EmptyListsReported(e: Event)
    ensures AgendaPath in ValidationErrors(e) <==> e.agenda == []
    ensures TagsPath in ValidationErrors(e) <==> e.tags == []
    ensures e.agenda == [] ==> ValidationErrors(e)[AgendaPath] == AgendaEmptyError
    ensures e.tags == [] ==> ValidationErrors(e)[TagsPath] == TagsEmptyError
  {
  }

  /** A missing required string is reported on its path with that path's `required` message. */
  lemma MissingFieldReported(e: Event, p: Path)
    requires p in AllPaths && !IsListPath(p) && p != SlugPath && StrAt(e, p) == ""
    ensures ValidationErrors(e)[p] == RequiredMessage(p)
  {
  }

  /** The slug is not required: any slug, even the empty one, passes validation. */
  lemma SlugNotValidated(e: Event)
    ensures SlugPath !in ValidationErrors(e)
  {
  }

  // ---- the pre-save hook ----

  const InvalidDateError := "Invalid date format"

  /** What the hook leaves in the document and the error it passes to `next`, if any. */
  datatype HookOutcome = HookOutcome(doc: Event, error: Option<string>)

  /** The slug step: re-derived from the title when the title changed or the slug is empty. */
  function SlugStep(e: Event, modified: set<Path>): Event {
    if TitlePath in modified || e.slug == "" then e.(slug := Setter(SlugPath, Slugify(e.title))) else e
  }

  /**
   * The whole hook: the slug step, then the date step when `date` changed, then the
   * time step when `time` changed. A failing step ends the hook, and what earlier
   * steps assigned stays in the document. `isoDate` stands for
   * `new Date(d).toISOString().split("T")[0]`, `None` when the date does not parse.
   */
  function PreSaveHook(e: Event, modified: set<Path>, isoDate: string -> Option<string>): HookOutcome {
    var e1 := SlugStep(e, modified);
    if DatePath in modified && isoDate(e1.date).None? then HookOutcome(e1, Some(InvalidDateError))
    else
      var e2 := if DatePath in modified then e1.(date := isoDate(e1.date).value) else e1;
      if TimePath !in modified then HookOutcome(e2, None)
      else match NormalizeTime(e2.time)
        case Failure(msg) => HookOutcome(e2, Some(msg))
        case Success(t) => HookOutcome(e2.(time := t), None)
  }

  /**
   * The paths the hook's own assignments mark as changed. The date and the time are
   * assigned only when they are marked already, so only the slug can be added: it is
   * marked when the hook gave it another value or, on a new document, whenever the
   * hook assigned it.
   */
  function HookMarks(before: Event, modified: set<Path>, isNew: bool, after: Event): set<Path> {
    if after.slug != before.slug || (isNew && (TitlePath in modified || before.slug == "")) then {SlugPath} else {}
  }

  /** The hook assigns only `slug`, `date` and `time`. */
  lemma HookKeepsOtherFields(e: Event, modified: set<Path>, isoDate: string -> Option<string>)
    ensures var d := PreSaveHook(e, modified, isoDate).doc;
      d == e.(slug := d.slug, date := d.date, time := d.time)
  {
  }

  /**
   * The slug is re-derived, and then is a well-formed slug, exactly when the title
   * changed or the slug was empty; otherwise it is left as it was.
   */
  lemma HookSlug(e: Event, modified: set<Path>, isoDate: string -> Option<string>)
    ensures var d := PreSaveHook(e, modified, isoDate).doc;
      d.slug == if TitlePath in modified || e.slug == "" then Slugify(e.title) else e.slug
    ensures TitlePath in modified || e.slug == "" ==> IsSlug(PreSaveHook(e, modified, isoDate).doc.slug)
  {
    SlugifyIsSlug(e.title);
    SlugSettersNoOp(Slugify(e.title));
  }

  /** The hook fails exactly when a changed date does not parse or a changed time is refused. */
  lemma HookFails(e: Event, modified: set<Path>, isoDate: string -> Option<string>)
    ensures var o := PreSaveHook(e, modified, isoDate);
      o.error.None? <==>
        (DatePath in modified ==> isoDate(e.date).Some?) && (TimePath in modified ==> NormalizeTime(e.time).Success?)
    ensures var o := PreSaveHook(e, modified, isoDate);
      o.error == Some(InvalidDateError) <==> DatePath in modified && isoDate(e.date).None?
    ensures var o := PreSaveHook(e, modified, isoDate);
      o.error == Some(TimeFormatError) <==>
        (DatePath in modified ==> isoDate(e.date).Some?) && TimePath in modified && NormalizeTime(e.time).Failure?
  {
  }

  /**
   * The time is touched only when `time` changed; a changed time that the hook
   * accepts is stored as five characters, the zero-padded hour and minute it denotes.
   */
  lemma HookTime(e: Event, modified: set<Path>, isoDate: string -> Option<string>)
    ensures TimePath !in modified ==> PreSaveHook(e, modified, isoDate).doc.time == e.time
    ensures var o := PreSaveHook(e, modified, isoDate);
      TimePath in modified && o.error.None? ==>
        && Denotes(Trim(e.time), Hour(Trim(e.time)), Minute(Trim(e.time)))
        && o.doc.time == Clock(Hour(Trim(e.time)), Minute(Trim(e.time)))
        && |o.doc.time| == 5
  {
  }

  /** The date is touched only when `date` changed, and then replaced by its ISO day. */
  lemma HookDate(e: Event, modified: set<Path>, isoDate: string -> Option<string>)
    ensures DatePath !in modified ==> PreSaveHook(e, modified, isoDate).doc.date == e.date
    ensures var o := PreSaveHook(e, modified, isoDate);
      DatePath in modified && o.error.None? ==> o.doc.date == isoDate(e.date).value
  {
  }

  /** The slug the hook stores is left alone by a later save that does not change the title. */
  lemma HookSlugStable(e: Event, modified: set<Path>, again: set<Path>, isoDate: string -> Option<string>)
    requires TitlePath !in again
    ensures var d := PreSaveHook(e, modified, isoDate).doc; SlugStep(d, again) == d
  {
    var d := PreSaveHook(e, modified, isoDate).doc;
    HookSlug(e, modified, isoDate);
    HookKeepsOtherFields(e, modified, isoDate);
    if d.slug == "" {
      SlugSettersNoOp(Slugify(e.title));
    }
  }

  /** A time the hook accepted and stored is accepted again unchanged. */
  lemma HookTimeStable(e: Event, modified: set<Path>, isoDate: string -> Option<string>)
    requires TimePath in modified && PreSaveHook(e, modified, isoDate).error.None?
    ensures var d := PreSaveHook(e, modified, isoDate).doc; NormalizeTime(d.time) == Success(d.time)
  {
    HookFails(e, modified, isoDate);
    HookTime(e, modified, isoDate);
    NormalizeTimeIdempotent(e.time);
  }

  /** The hook changes nothing in a document whose slug and changed time are already in stored form. */
  lemma HookOnSettled(d: Event, again: set<Path>, isoDate: string -> Option<string>)
    requires SlugStep(d, again) == d && DatePath !in again
    requires TimePath in again ==> NormalizeTime(d.time) == Success(d.time)
    ensures PreSaveHook(d, again, isoDate) == HookOutcome(d, None)
  {
  }

  /**
   * Running the hook again on what it stored, with nothing changed or with only the
   * time marked changed, changes nothing and succeeds.
   */
  lemma HookIdempotent(e: Event, modified: set<Path>, again: set<Path>, isoDate: string -> Option<string>)
    requires PreSaveHook(e, modified, isoDate).error.None?
    requires again <= {TimePath} && (TimePath in again ==> TimePath in modified)
    ensures var d := PreSaveHook(e, modified, isoDate).doc;
      PreSaveHook(d, again, isoDate) == HookOutcome(d, None)
  {
    HookSlugStable(e, modified, again, isoDate);
    if TimePath in again {
      HookTimeStable(e, modified, isoDate);
    }
    HookOnSettled(PreSaveHook(e, modified, isoDate).doc, again, isoDate);
  }

  // ---- documents ----

  /** A document of the Event model: its values, whether it is stored yet, and the paths changed since it was loaded. */
  class EventDocument {
    var data: Event
    var isNew: bool
    var modified: set<Path>

    /** `new Event(input)`: the setters run on every field, and every field given counts as changed. */
    constructor (input: Event)
      ensures data == ApplySetters(input) && isNew && modified == Given(input)
    {
      data := ApplySetters(input);
      isNew := true;
      modified := Given(input);
    }

    /** A document as a query returns it: stored, with nothing changed. */
    constructor Loaded(stored: Event)
      ensures data == stored && !isNew && modified == {}
    {
      data := stored;
      isNew := false;
      modified := {};
    }

    /**
     * `doc[p] = raw` on a string path: the setter runs, and the path counts as changed
     * when the document is new or the stored value differs from the old one.
     */
    method Assign(p: Path, raw: string)
      requires !IsListPath(p)
      modifies this
      ensures data == WithStr(old(data), p, Setter(p, raw)) && isNew == old(isNew)
      ensures modified == if isNew || Setter(p, raw) != StrAt(old(data), p) then old(modified) + {p} else old(modified)
    {
      var v := Setter(p, raw);
      if isNew || v != StrAt(data, p) {
        modified := modified + {p};
      }
      data := WithStr(data, p, v);
    }

    /** `doc.agenda = items` or `doc.tags = items`. */
    method AssignList(p: Path, items: seq<string>)
      requires IsListPath(p)
      modifies this
      ensures data == if p == AgendaPath then old(data).(agenda := items) else old(data).(tags := items)
      ensures isNew == old(isNew)
      ensures modified == if isNew || items != (if p == AgendaPath then old(data).agenda else old(data).tags)
        then old(modified) + {p} else old(modified)
    {
      var was := if p == AgendaPath then data.agenda else data.tags;
      if isNew || items != was {
        modified := modified + {p};
      }
      if p == AgendaPath {
        data := data.(agenda := items);
      } else {
        data := data.(tags := items);
      }
    }

    /**
     * The pre-save hook, step by step in place. An error returns at once and
     * leaves what earlier steps assigned in the document. The hook's assignment to
     * the slug marks it changed like any other assignment.
     */
    method PreSave(isoDate: string -> Option<string>) returns (err: Option<string>)
      modifies this
      ensures HookOutcome(data, err) == PreSaveHook(old(data), old(modified), isoDate)
      ensures isNew == old(isNew) && modified == old(modified) + HookMarks(old(data), old(modified), isNew, data)
    {
      ghost var d0, m0 := data, modified;
      if TitlePath in modified || data.slug == "" {
        var v := Setter(SlugPath, Slugify(data.title));
        if isNew || v != data.slug {
          modified := modified + {SlugPath};
        }
        data := data.(slug := v);
      }
      assert data == SlugStep(d0, m0);
      assert modified == m0 + HookMarks(d0, m0, isNew, data);
      assert DatePath in modified <==> DatePath in m0;
      assert TimePath in modified <==> TimePath in m0;
      if DatePath in modified {
        match isoDate(data.date)
        case None =>
          return Some(InvalidDateError);
        case Some(day) =>
          data := data.(date := day);
      }
      if TimePath in modified {
        match NormalizeTime(data.time)
        case Failure(msg) =>
          return Some(msg);
        case Success(t) =>
          data := data.(time := t);
      }
      return None;
    }

    /** After a successful write the document is stored and nothing counts as changed. */
    method MarkSaved()
      modifies this
      ensures data == old(data) && !isNew && modified == {}
    {
      isNew := false;
      modified := {};
    }
  }

  // ---- the store and its indexes ----

  /** Why a save is refused. */
  datatype SaveError =
    | ValidationFailed(errors: map<Path, string>)
    | HookFailed(message: string)
    | DuplicateKey(index: string)
    | DocumentNotFound

  /** The `_id` index: no two stored events share an id. */
  predicate IdsUnique(es: seq<Event>) {
    forall i, j :: 0 <= i < j < |es| ==> es[i].id != es[j].id
  }

  /** Under the `_id` index, two positions holding the same id are one position. */
  lemma SameIdSameIndex(es: seq<Event>, i: int, j: int)
    requires IdsUnique(es) && 0 <= i < |es| && 0 <= j < |es| && es[i].id == es[j].id
    ensures i == j
  {
  }

  /** The unique index on `slug`: no two stored events share a slug. */
  predicate SlugsUnique(es: seq<Event>) {
    forall i, j :: 0 <= i < j < |es| ==> es[i].slug != es[j].slug
  }

  /** A single-document query: the first stored event the filter `matches` admits, if any. */
  function FindFirst(es: seq<Event>, matches: Event -> bool): (r: Option<Event>)
    ensures r.Some? ==> r.value in es && matches(r.value)
    ensures r.None? <==> forall x :: x in es ==> !matches(x)
  {
    if es == [] then None
    else if matches(es[0]) then Some(es[0])
    else FindFirst(es[1..], matches)
  }

  /** `Event.findById(id)`: the stored event with that id, if any. */
  function FindById(es: seq<Event>, id: EventId): (r: Option<Event>)
    ensures r.Some? ==> r.value in es && r.value.id == id
    ensures r.None? <==> forall x :: x in es ==> x.id != id
  {
    FindFirst(es, (x: Event) => x.id == id)
  }

  /** Writing a new document: the `_id` index and the `slug` index refuse a value already stored. */
  function Insert(es: seq<Event>, e: Event): Result<seq<Event>, SaveError> {
    if exists x :: x in es && x.id == e.id then Failure(DuplicateKey("_id"))
    else if exists x :: x in es && x.slug == e.slug then Failure(DuplicateKey("slug"))
    else Success(es + [e])
  }

  /** `stored` with the paths in `paths` taken from `e`: what a `$set` of those paths leaves. */
  function Merge(stored: Event, e: Event, paths: set<Path>): (r: Event)
    ensures r.id == stored.id
    ensures forall p :: !IsListPath(p) ==> StrAt(r, p) == StrAt(if p in paths then e else stored, p)
    ensures r.agenda == (if AgendaPath in paths then e else stored).agenda
    ensures r.tags == (if TagsPath in paths then e else stored).tags
  {
    var from := (p: Path) => if p in paths then e else stored;
    Event(stored.id, from(TitlePath).title, from(SlugPath).slug, from(DescriptionPath).description,
      from(OverviewPath).overview, from(ImagePath).image, from(VenuePath).venue,
      from(LocationPath).location, from(DatePath).date, from(TimePath).time, from(ModePath).mode,
      from(AudiencePath).audience, from(AgendaPath).agenda, from(OrganizerPath).organizer,
      from(TagsPath).tags)
  }

  /** A loaded document is up to date when the stored record agrees with it on every path it did not change. */
  predicate UpToDate(stored: Event, e: Event, paths: set<Path>) {
    && stored.id == e.id
    && (forall p :: !IsListPath(p) && p !in paths ==> StrAt(stored, p) == StrAt(e, p))
    && (AgendaPath !in paths ==> stored.agenda == e.agenda)
    && (TagsPath !in paths ==> stored.tags == e.tags)
  }

  /** Writing the changed paths of an up-to-date document stores exactly that document. */
  lemma MergeUpToDate(stored: Event, e: Event, paths: set<Path>)
    requires UpToDate(stored, e, paths)
    ensures Merge(stored, e, paths) == e
  {
    EventExtensional(Merge(stored, e, paths), e);
  }

  /**
   * Two documents loaded from the same record, each changing other paths, are both
   * kept when written back one after the other: no write puts back a stale value.
   */
  lemma DisjointWriteBacksKept(stored: Event, a: Event, pa: set<Path>, b: Event, pb: set<Path>)
    requires UpToDate(stored, a, pa) && UpToDate(stored, b, pb) && pa !! pb
    ensures var r := Merge(Merge(stored, a, pa), b, pb);
      && (forall p :: !IsListPath(p) ==> StrAt(r, p) == StrAt(if p in pb then b else if p in pa then a else stored, p))
      && r.agenda == (if AgendaPath in pb then b else if AgendaPath in pa then a else stored).agenda
      && r.tags == (if TagsPath in pb then b else if TagsPath in pa then a else stored).tags
  {
  }

  /**
   * Writing a loaded document back: a `$set` of the paths in `paths` on the stored
   * event with its id. Refused when no event has the id, or when the slug it would
   * leave is held by another event.
   */
  function Replace(es: seq<Event>, e: Event, paths: set<Path>): Result<seq<Event>, SaveError> {
    match FindById(es, e.id)
    case None => Failure(DocumentNotFound)
    case Some(stored) =>
      var merged := Merge(stored, e, paths);
      if exists x :: x in es && x.id != e.id && x.slug == merged.slug then Failure(DuplicateKey("slug"))
      else Success(seq(|es|, i requires 0 <= i < |es| => if es[i].id == e.id then merged else es[i]))
  }

  /** An insert that goes through keeps both indexes unique and adds exactly the new event. */
  lemma InsertKeepsIndexes(es: seq<Event>, e: Event)
    requires IdsUnique(es) && SlugsUnique(es) && Insert(es, e).Success?
    ensures IdsUnique(Insert(es, e).value) && SlugsUnique(Insert(es, e).value)
    ensures Insert(es, e).value == es + [e]
  {
    var r := es + [e];
    forall i, j | 0 <= i < j < |r| ensures r[i].id != r[j].id && r[i].slug != r[j].slug {
      if j == |es| {
        assert r[i] in es;
      }
    }
  }

  /**
   * A write-back that goes through keeps both indexes unique and changes only the
   * event with its id, which gets the written paths of the document.
   */
  lemma ReplaceKeepsIndexes(es: seq<Event>, e: Event, paths: set<Path>)
    requires IdsUnique(es) && SlugsUnique(es) && Replace(es, e, paths).Success?
    ensures IdsUnique(Replace(es, e, paths).value) && SlugsUnique(Replace(es, e, paths).value)
    ensures |Replace(es, e, paths).value| == |es|
    ensures forall i :: 0 <= i < |es| ==>
      Replace(es, e, paths).value[i] == if es[i].id == e.id then Merge(es[i], e, paths) else es[i]
  {
    var stored := FindById(es, e.id).value;
    var k :| 0 <= k < |es| && es[k] == stored;
    forall i | 0 <= i < |es| && es[i].id == e.id ensures es[i] == stored {
      SameIdSameIndex(es, i, k);
    }
    var r := Replace(es, e, paths).value;
    forall i, j | 0 <= i < j < |r| ensures r[i].id != r[j].id && r[i].slug != r[j].slug {
      assert es[i] in es && es[j] in es;
    }
  }

  /** What a save leaves in the store and in the document, and what it resolves to. */
  datatype SaveOutcome = SaveOutcome(store: seq<Event>, doc: Event, result: Result<Event, SaveError>)

  /**
   * `doc.save()`: validation, then the pre-save hook, then the write, which the
   * indexes may refuse. A refused save leaves the store as it was.
   */
  function SaveEvent(es: seq<Event>, e: Event, isNew: bool, modified: set<Path>, isoDate: string -> Option<string>): SaveOutcome {
    var errors := ValidationErrors(e);
    if errors != map[] then SaveOutcome(es, e, Failure(ValidationFailed(errors)))
    else
      var hook := PreSaveHook(e, modified, isoDate);
      if hook.error.Some? then SaveOutcome(es, hook.doc, Failure(HookFailed(hook.error.value)))
      else match (if isNew then Insert(es, hook.doc) else Replace(es, hook.doc, modified + HookMarks(e, modified, false, hook.doc)))
        case Failure(err) => SaveOutcome(es, hook.doc, Failure(err))
        case Success(next) => SaveOutcome(next, hook.doc, Success(hook.doc))
  }

  /** Saving keeps the `_id` index and the `slug` index unique. */
  lemma SaveKeepsIndexes(es: seq<Event>, e: Event, isNew: bool, modified: set<Path>, isoDate: string -> Option<string>)
    requires IdsUnique(es) && SlugsUnique(es)
    ensures var o := SaveEvent(es, e, isNew, modified, isoDate);
      IdsUnique(o.store) && SlugsUnique(o.store)
  {
    var o := SaveEvent(es, e, isNew, modified, isoDate);
    if o.result.Success? {
      var d := PreSaveHook(e, modified, isoDate).doc;
      if isNew {
        InsertKeepsIndexes(es, d);
      } else {
        ReplaceKeepsIndexes(es, d, modified + HookMarks(e, modified, false, d));
      }
    }
  }

  /**
   * A save either is refused and leaves the store unchanged, or stores the document
   * as the hook left it: appended when new; when loaded, its changed paths and the
   * slug the hook changed are written over the stored event with its id.
   */
  lemma SaveEffect(es: seq<Event>, e: Event, isNew: bool, modified: set<Path>, isoDate: string -> Option<string>)
    requires IdsUnique(es) && SlugsUnique(es)
    ensures var o := SaveEvent(es, e, isNew, modified, isoDate);
      && (o.result.Failure? ==> o.store == es)
      && (o.result.Success? ==> o.result.value == o.doc && ValidEvent(e))
      && (o.result.Success? && isNew ==> o.store == es + [o.doc])
      && (o.result.Success? && !isNew ==>
            && |o.store| == |es|
            && forall i :: 0 <= i < |es| ==>
                 o.store[i] == if es[i].id == e.id then Merge(es[i], o.doc, modified + HookMarks(e, modified, false, o.doc)) else es[i])
  {
    var o := SaveEvent(es, e, isNew, modified, isoDate);
    ValidationErrorsEmpty(e);
    if o.result.Success? {
      var d := PreSaveHook(e, modified, isoDate).doc;
      HookKeepsOtherFields(e, modified, isoDate);
      if isNew {
        InsertKeepsIndexes(es, d);
      } else {
        ReplaceKeepsIndexes(es, d, modified + HookMarks(e, modified, false, d));
      }
    }
  }

  /**
   * Saving a loaded document that is up to date with the store puts exactly the
   * document, as the hook left it, in place of the stored event with its id.
   */
  lemma UpToDateSaveStoresDoc(es: seq<Event>, e: Event, modified: set<Path>, isoDate: string -> Option<string>, stored: Event)
    requires IdsUnique(es) && SlugsUnique(es)
    requires stored in es && UpToDate(stored, e, modified)
    ensures var o := SaveEvent(es, e, false, modified, isoDate);
      o.result.Success? ==>
        && |o.store| == |es|
        && forall i :: 0 <= i < |es| ==> o.store[i] == if es[i].id == e.id then o.doc else es[i]
  {
    var o := SaveEvent(es, e, false, modified, isoDate);
    if o.result.Success? {
      SaveEffect(es, e, false, modified, isoDate);
      SaveRunsHook(es, e, false, modified, isoDate);
      var d := o.doc;
      var w := modified + HookMarks(e, modified, false, d);
      HookKeepsOtherFields(e, modified, isoDate);
      HookDate(e, modified, isoDate);
      HookTime(e, modified, isoDate);
      assert UpToDate(stored, d, w);
      MergeUpToDate(stored, d, w);
      var k :| 0 <= k < |es| && es[k] == stored;
      forall i | 0 <= i < |es| && es[i].id == e.id ensures es[i] == stored {
        SameIdSameIndex(es, i, k);
      }
    }
  }

  /** Validation comes first: an invalid document is refused with its errors and the hook never runs. */
  lemma SaveValidatesFirst(es: seq<Event>, e: Event, isNew: bool, modified: set<Path>, isoDate: string -> Option<string>)
    requires !ValidEvent(e)
    ensures SaveEvent(es, e, isNew, modified, isoDate) == SaveOutcome(es, e, Failure(ValidationFailed(ValidationErrors(e))))
  {
    ValidationErrorsEmpty(e);
  }

  /**
   * A new event whose slug, once the hook has run, is already stored is refused by an
   * index, and by the `slug` index when its id is fresh; the store is unchanged.
   */
  lemma SaveRefusesTakenSlug(es: seq<Event>, e: Event, modified: set<Path>, isoDate: string -> Option<string>, other: Event)
    requires ValidEvent(e) && PreSaveHook(e, modified, isoDate).error.None?
    requires other in es && other.slug == PreSaveHook(e, modified, isoDate).doc.slug
    ensures var o := SaveEvent(es, e, true, modified, isoDate);
      o.store == es && o.result.Failure? && o.result.error.DuplicateKey?
    ensures FindById(es, e.id).None? ==> SaveEvent(es, e, true, modified, isoDate).result == Failure(DuplicateKey("slug"))
  {
    ValidationErrorsEmpty(e);
    HookKeepsOtherFields(e, modified, isoDate);
  }

  /** A valid document reaches the hook, and the document a save leaves is the one the hook left. */
  lemma SaveRunsHook(es: seq<Event>, e: Event, isNew: bool, modified: set<Path>, isoDate: string -> Option<string>)
    ensures var o := SaveEvent(es, e, isNew, modified, isoDate);
      && (ValidEvent(e) ==> o.doc == PreSaveHook(e, modified, isoDate).doc)
      && (o.result.Success? ==> ValidEvent(e) && PreSaveHook(e, modified, isoDate).error.None?)
  {
    ValidationErrorsEmpty(e);
  }

  /** A created document whose title survives its setter counts its title as changed. */
  lemma CreatedTitleGiven(input: Event)
    requires ApplySetters(input).title != ""
    ensures TitlePath in Given(input)
  {
    assert StrAt(ApplySetters(input), TitlePath) == Trim(input.title);
  }

  /** A created document whose time is not empty counts its time as changed. */
  lemma CreatedTimeGiven(input: Event)
    requires ApplySetters(input).time != ""
    ensures TimePath in Given(input)
  {
    assert StrAt(ApplySetters(input), TimePath) == input.time;
  }

  /** A newly created event that is saved gets the slug derived from its title. */
  lemma NewEventSlugDerived(es: seq<Event>, input: Event, isoDate: string -> Option<string>)
    ensures var o := SaveEvent(es, ApplySetters(input), true, Given(input), isoDate);
      o.result.Success? ==> o.doc.slug == Slugify(ApplySetters(input).title) && IsSlug(o.doc.slug)
  {
    var e := ApplySetters(input);
    var m := Given(input);
    var o := SaveEvent(es, e, true, m, isoDate);
    if o.result.Success? {
      SaveRunsHook(es, e, true, m, isoDate);
      CreatedTitleGiven(input);
      HookSlug(e, m, isoDate);
    }
  }

  /** A newly created event that is saved holds its time in the zero-padded `HH:MM` form. */
  lemma NewEventTimeCanonical(es: seq<Event>, input: Event, isoDate: string -> Option<string>)
    ensures var o := SaveEvent(es, ApplySetters(input), true, Given(input), isoDate);
      o.result.Success? ==> |o.doc.time| == 5 && NormalizeTime(o.doc.time) == Success(o.doc.time)
  {
    var e := ApplySetters(input);
    var m := Given(input);
    var o := SaveEvent(es, e, true, m, isoDate);
    if o.result.Success? {
      SaveRunsHook(es, e, true, m, isoDate);
      CreatedTimeGiven(input);
      HookTime(e, m, isoDate);
      HookTimeStable(e, m, isoDate);
    }
  }

  /** The events collection. */
  class EventCollection {
    var events: seq<Event>

    ghost predicate Valid()
      reads this
    {
      IdsUnique(events) && SlugsUnique(events)
    }

    constructor ()
      ensures events == [] && Valid()
    {
      events := [];
    }

    /** `doc.save()` against this collection. */
    method Save(doc: EventDocument, isoDate: string -> Option<string>) returns (r: Result<Event, SaveError>)
      requires Valid()
      modifies this, doc
      ensures Valid()
      ensures SaveOutcome(events, doc.data, r) == SaveEvent(old(events), old(doc.data), old(doc.isNew), old(doc.modified), isoDate)
      ensures doc.isNew == (old(doc.isNew) && r.Failure?)
      ensures r.Success? ==> doc.modified == {}
      ensures r.Failure? ==> doc.modified == if ValidationErrors(old(doc.data)) != map[] then old(doc.modified)
        else old(doc.modified) + HookMarks(old(doc.data), old(doc.modified), old(doc.isNew), doc.data)
    {
      SaveKeepsIndexes(events, doc.data, doc.isNew, doc.modified, isoDate);
      var errors := ValidationErrors(doc.data);
      if errors != map[] {
        return Failure(ValidationFailed(errors));
      }
      var hookError := doc.PreSave(isoDate);
      if hookError.Some? {
        return Failure(HookFailed(hookError.value));
      }
      var written := if doc.isNew then Insert(events, doc.data) else Replace(events, doc.data, doc.modified);
      if written.Failure? {
        return Failure(written.error);
      }
      events := written.value;
      doc.MarkSaved();
      return Success(doc.data);
    }
  }
}
