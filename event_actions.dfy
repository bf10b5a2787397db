/**
 * `getSimilarEvents(slug)`: look the event up by slug, then return every other
 * stored event that shares a tag with it, in store order. Any failure on the way
 * gives the empty list.
 */
module EventActions {
  import opened Wrappers
  import opened Text
  import opened EventModel

  /**
   * `Event.findOne({ slug })`: Mongoose first casts the filter value through the slug
   * path's setters, so the stored slug is compared with the argument lower-cased and
   * trimmed. The result is the first stored event with that slug, if any.
   */
  function FindOneBySlug(es: seq<Event>, slug: string): (r: Option<Event>)
    ensures r.Some? ==> r.value in es && r.value.slug == Trim(Lower(slug))
    ensures r.None? <==> forall x :: x in es ==> x.slug != Trim(Lower(slug))
  {
    FindFirst(es, (x: Event) => x.slug == Setter(SlugPath, slug))
  }

  /** `tags: { $in: wanted }` on an array field: some tag of `e` is among `wanted`. */
  predicate TagsIn(e: Event, wanted: seq<string>) {
    exists t :: t in e.tags && t in wanted
  }

  /**
   * The filter `{ _id: { $ne: source?._id }, tags: { $in: source?.tags || [] } }`.
   * With no source the `$ne` compares with `undefined`, which every stored id passes,
   * and the `$in` list is empty, which no event passes.
   */
  predicate MatchesQuery(e: Event, source: Option<Event>) {
    && (source.None? || e.id != source.value.id)
    && TagsIn(e, if source.Some? then source.value.tags else [])
  }

  /** `Event.find(filter)`: the stored events the filter admits, in store order. */
  function FindMatching(es: seq<Event>, source: Option<Event>): (r: seq<Event>)
    ensures |r| <= |es|
    ensures forall x :: x in r <==> x in es && MatchesQuery(x, source)
  {
    if es == [] then []
    else if MatchesQuery(es[0], source) then [es[0]] + FindMatching(es[1..], source)
    else FindMatching(es[1..], source)
  }

  /**
   * The whole action. `db` is what the connection yields: the stored events, or a
   * failure of the connection or of a query, which the action turns into `[]`.
   */
  function GetSimilarEvents(db: Result<seq<Event>, string>, slug: string): seq<Event> {
    match db
    case Failure(_) => []
    case Success(es) => FindMatching(es, FindOneBySlug(es, slug))
  }

  /** Two events share a tag. */
  predicate ShareTag(a: Event, b: Event) {
    exists t :: t in a.tags && t in b.tags
  }

  /** The answer as a set: every stored event other than the source that shares a tag with it. */
  ghost function SimilarSet(es: seq<Event>, source: Event): set<Event> {
    set x | x in es && x.id != source.id && ShareTag(x, source)
  }

  /**
   * When the slug names a stored event, the result holds exactly the other stored
   * events that share a tag with it: each one is in the result and nothing else is.
   */
  lemma SimilarIsExactly(es: seq<Event>, slug: string)
    requires FindOneBySlug(es, slug).Some?
    ensures var source := FindOneBySlug(es, slug).value;
      (set x | x in GetSimilarEvents(Success(es), slug)) == SimilarSet(es, source)
  {
  }

  /** Every returned event shares a tag with the source, and the source itself is never returned. */
  lemma SimilarSound(es: seq<Event>, slug: string, x: Event)
    requires x in GetSimilarEvents(Success(es), slug)
    ensures FindOneBySlug(es, slug).Some?
    ensures var source := FindOneBySlug(es, slug).value;
      x in es && x.id != source.id && x != source && ShareTag(x, source)
  {
  }

  /** Every other stored event that shares a tag with the source is returned: there is no cap. */
  lemma SimilarComplete(es: seq<Event>, slug: string, x: Event)
    requires FindOneBySlug(es, slug).Some?
    requires x in es && x.id != FindOneBySlug(es, slug).value.id && ShareTag(x, FindOneBySlug(es, slug).value)
    ensures x in GetSimilarEvents(Success(es), slug)
  {
  }

  /** Without a source event the filter's `$in` list is empty, and no stored event passes it. */
  lemma {:induction false} NoSourceMatchesNothing(es: seq<Event>)
    ensures FindMatching(es, None) == []
  {
    if es != [] {
      assert !TagsIn(es[0], []);
      NoSourceMatchesNothing(es[1..]);
    }
  }

  /** When no stored event has the cast slug, the result is empty. */
  lemma UnknownSlugGivesNothing(es: seq<Event>, slug: string)
    requires forall x :: x in es ==> x.slug != Trim(Lower(slug))
    ensures GetSimilarEvents(Success(es), slug) == []
  {
    NoSourceMatchesNothing(es);
  }

  /**
   * The lookup ignores letter case and surrounding white space in the argument:
   * casting an argument that was already cast finds the same event.
   */
  lemma LookupIgnoresCaseAndSpace(es: seq<Event>, slug: string)
    ensures FindOneBySlug(es, slug) == FindOneBySlug(es, Trim(Lower(slug)))
    ensures GetSimilarEvents(Success(es), slug) == GetSimilarEvents(Success(es), Trim(Lower(slug)))
  {
    TrimLowerIdempotent(slug);
  }

  /**
   * A slug typed with capitals finds the stored event: with the stored slug
   * "react-summit-2025", the argument "React-Summit-2025" finds that event and its
   * tag-sharing peers are returned.
   */
  lemma MixedCaseSlugFindsEvent(es: seq<Event>, slug: string, a: Event, b: Event)
    requires slug == "React-Summit-2025" && a.slug == "react-summit-2025"
    requires es == [a, b] && b.id != a.id && ShareTag(b, a)
    ensures FindOneBySlug(es, slug) == Some(a)
    ensures b in GetSimilarEvents(Success(es), slug)
  {
    assert Lower(slug) == "react-summit-2025";
    TrimNoOp(Lower(slug));
    SimilarComplete(es, slug, b);
  }

  /** A failure anywhere in the lookup gives the empty list rather than an error. */
  lemma FailureGivesNothing(message: string, slug: string)
    ensures GetSimilarEvents(Failure(message), slug) == []
  {
  }

  /**
   * The result keeps store order: matching the events of two stretches of the store
   * gives the matches of the first stretch followed by those of the second.
   */
  lemma {:induction false} FindMatchingKeepsOrder(a: seq<Event>, b: seq<Event>, source: Option<Event>)
    ensures FindMatching(a + b, source) == FindMatching(a, source) + FindMatching(b, source)
  {
    if a == [] {
      assert a + b == b;
    } else {
      assert (a + b)[0] == a[0];
      assert (a + b)[1..] == a[1..] + b;
      FindMatchingKeepsOrder(a[1..], b, source);
    }
  }
}
